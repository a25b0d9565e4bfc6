/** cleanPhoneNumbersList of cmd/root.go: keep the candidates that match the
    E.164 pattern, each once, in order of first occurrence, and report the
    others as warnings. */
module Normalizer {
  import opened E164

  /** A non-fatal diagnostic printed while cleaning. */
  datatype Warning =
    | Duplicate(number: string)  // a matching number seen before; skipped
    | NotE164(candidate: string) // a non-blank candidate that fails the pattern; ignored

  datatype Stream = Stdout | Stderr

  /** Where a warning is printed: the duplicate notice goes to standard
      output, the format notice to standard error. */
  function StreamOf(w: Warning): (out: Stream)
    ensures out == Stderr <==> w.NotE164?
  {
    match w
    case Duplicate(_) => Stdout
    case NotE164(_) => Stderr
  }

  /** The loop state of cleanPhoneNumbersList: the output list, the seen-map
      (as the set of its keys) and the warnings printed so far. */
  datatype CleanState = CleanState(cleaned: seq<string>, seen: set<string>, warnings: seq<Warning>)

  const Initial := CleanState([], {}, [])

  /** One iteration of the loop body. As in the source, a candidate that fails
      the pattern is marked as seen too, unless it is blank. */
  function Step(st: CleanState, s: string): (st': CleanState)
    // the seen-map only grows, and output and warnings only get appended to
    ensures st.seen <= st'.seen
    ensures st.cleaned <= st'.cleaned && st.warnings <= st'.warnings
    // a candidate is appended only if it matches and was not seen
    ensures st'.cleaned != st.cleaned ==> st'.cleaned == st.cleaned + [s] && IsE164(s) && s !in st.seen
    // each non-blank candidate is either kept or warned about, a blank neither
    ensures (|st'.cleaned| - |st.cleaned|) + (|st'.warnings| - |st.warnings|) == if s == "" then 0 else 1
  {
    if IsE164(s) then
      if s !in st.seen then CleanState(st.cleaned + [s], st.seen + {s}, st.warnings)
      else CleanState(st.cleaned, st.seen + {s}, st.warnings + [Duplicate(s)])
    else if s == "" then st
    else CleanState(st.cleaned, st.seen + {s}, st.warnings + [NotE164(s)])
  }

  /** The whole loop: candidates are processed from first to last. */
  function Clean(xs: seq<string>): (st: CleanState)
    ensures forall i :: 0 <= i < |st.cleaned| ==> IsE164(st.cleaned[i])
    ensures |st.cleaned| + |st.warnings| <= |xs|
    decreases |xs|
  {
    if |xs| == 0 then Initial else Step(Clean(xs[..|xs| - 1]), xs[|xs| - 1])
  }

  // ---------------------------------------------------------------------
  // Reference definitions, stated over the input alone (no seen-map).
  // ---------------------------------------------------------------------

  /** The matching candidates, each at its first occurrence. */
  function FirstMatches(xs: seq<string>): seq<string>
    decreases |xs|
  {
    if |xs| == 0 then []
    else
      var init, s := xs[..|xs| - 1], xs[|xs| - 1];
      FirstMatches(init) + (if IsE164(s) && s !in init then [s] else [])
  }

  /** The warning a candidate draws, given the candidates before it. */
  function WarningFor(before: seq<string>, s: string): seq<Warning> {
    if IsE164(s) then (if s in before then [Duplicate(s)] else [])
    else if s == "" then []
    else [NotE164(s)]
  }

  function ExpectedWarnings(xs: seq<string>): seq<Warning>
    decreases |xs|
  {
    if |xs| == 0 then []
    else ExpectedWarnings(xs[..|xs| - 1]) + WarningFor(xs[..|xs| - 1], xs[|xs| - 1])
  }

  function Blanks(xs: seq<string>): nat
    decreases |xs|
  {
    if |xs| == 0 then 0
    else Blanks(xs[..|xs| - 1]) + (if xs[|xs| - 1] == "" then 1 else 0)
  }

  /** Index of the first occurrence of `s` in `xs`. */
  function FirstIndex(xs: seq<string>, s: string): (k: nat)
    requires s in xs
    ensures k < |xs| && xs[k] == s && s !in xs[..k]
    decreases |xs|
  {
    if xs[0] == s then 0 else 1 + FirstIndex(xs[1..], s)
  }

  /** Every element of `ys` occurs in `xs`, and earlier in `ys` means first seen earlier in `xs`. */
  predicate InFirstOccurrenceOrder(xs: seq<string>, ys: seq<string>) {
    forall i, j :: 0 <= i < j < |ys| ==>
      ys[i] in xs && ys[j] in xs && FirstIndex(xs, ys[i]) < FirstIndex(xs, ys[j])
  }

  predicate Distinct(ys: seq<string>) {
    forall i, j :: 0 <= i < j < |ys| ==> ys[i] != ys[j]
  }

  // ---------------------------------------------------------------------
  // The loop agrees with the reference definitions.
  // ---------------------------------------------------------------------

  /** The seen-map holds exactly the non-blank candidates processed so far. */
  lemma {:induction false} CleanSeen(xs: seq<string>)
    ensures forall s :: s in Clean(xs).seen <==> s in xs && s != ""
    decreases |xs|
  {
    if |xs| > 0 {
      var init, s := xs[..|xs| - 1], xs[|xs| - 1];
      CleanSeen(init);
      assert xs == init + [s];
      assert forall t :: t in xs <==> t in init || t == s;
    }
  }

  lemma {:induction false} CleanCleaned(xs: seq<string>)
    ensures Clean(xs).cleaned == FirstMatches(xs)
    decreases |xs|
  {
    if |xs| > 0 {
      var init, s := xs[..|xs| - 1], xs[|xs| - 1];
      CleanCleaned(init);
      CleanSeen(init);
      if IsE164(s) {
        assert s in Clean(init).seen <==> s in init;
      }
    }
  }

  lemma {:induction false} CleanWarnings(xs: seq<string>)
    ensures Clean(xs).warnings == ExpectedWarnings(xs)
    decreases |xs|
  {
    if |xs| > 0 {
      var init, s := xs[..|xs| - 1], xs[|xs| - 1];
      CleanWarnings(init);
      CleanSeen(init);
      if IsE164(s) {
        assert s in Clean(init).seen <==> s in init;
      }
    }
  }

  /** Loop invariant of cleanPhoneNumbersList: the output and the warnings are
      the reference ones, and the seen-map holds exactly the non-blank
      candidates processed so far. */
  lemma CleanIsReference(xs: seq<string>)
    ensures Clean(xs).cleaned == FirstMatches(xs)
    ensures Clean(xs).warnings == ExpectedWarnings(xs)
    ensures forall s :: s in Clean(xs).seen <==> s in xs && s != ""
  {
    CleanSeen(xs);
    CleanCleaned(xs);
    CleanWarnings(xs);
  }

  /** The per-candidate rules: a blank is dropped silently, a non-blank
      non-matching candidate draws one format warning, a repeat of a matching
      number draws one duplicate warning, and only a new matching number is
      appended. */
  lemma {:induction false} CleanAppend(xs: seq<string>, s: string)
    ensures s == "" ==> Clean(xs + [s]) == Clean(xs)
    ensures !IsE164(s) && s != "" ==>
      Clean(xs + [s]).cleaned == Clean(xs).cleaned && Clean(xs + [s]).warnings == Clean(xs).warnings + [NotE164(s)]
    ensures IsE164(s) && s in xs ==>
      Clean(xs + [s]).cleaned == Clean(xs).cleaned && Clean(xs + [s]).warnings == Clean(xs).warnings + [Duplicate(s)]
    ensures IsE164(s) && s !in xs ==>
      Clean(xs + [s]).cleaned == Clean(xs).cleaned + [s] && Clean(xs + [s]).warnings == Clean(xs).warnings
  {
    assert (xs + [s])[..|xs|] == xs;
    CleanIsReference(xs);
  }

  // ---------------------------------------------------------------------
  // Properties of the cleaned list.
  // ---------------------------------------------------------------------

  /** A string is in the output iff it matches the pattern and occurs in the input. */
  lemma {:induction false} FirstMatchesMembers(xs: seq<string>)
    ensures forall s :: s in FirstMatches(xs) <==> IsE164(s) && s in xs
    decreases |xs|
  {
    if |xs| > 0 {
      var init, s := xs[..|xs| - 1], xs[|xs| - 1];
      FirstMatchesMembers(init);
      assert xs == init + [s];
    }
  }

  lemma {:induction false} FirstMatchesDistinct(xs: seq<string>)
    ensures Distinct(FirstMatches(xs))
    decreases |xs|
  {
    if |xs| > 0 {
      var init := xs[..|xs| - 1];
      FirstMatchesDistinct(init);
      FirstMatchesMembers(init);
    }
  }

  lemma {:induction false} FirstMatchesShorter(xs: seq<string>)
    ensures |FirstMatches(xs)| <= |xs|
    decreases |xs|
  {
    if |xs| > 0 {
      FirstMatchesShorter(xs[..|xs| - 1]);
    }
  }

  /** A first occurrence in a prefix is still the first occurrence in the whole. */
  lemma FirstIndexPrefix(xs: seq<string>, s: string, t: string)
    requires t in xs
    ensures FirstIndex(xs + [s], t) == FirstIndex(xs, t)
  {
    var k := FirstIndex(xs, t);
    assert (xs + [s])[..k] == xs[..k];
    FirstIndexUnique(xs + [s], t, k);
  }

  /** The first occurrence is the only index with no earlier occurrence. */
  lemma FirstIndexUnique(xs: seq<string>, t: string, k: nat)
    requires k < |xs| && xs[k] == t && t !in xs[..k]
    ensures FirstIndex(xs, t) == k
  {
  }

  /** Output order is the order of first occurrence in the input. */
  lemma {:induction false} FirstMatchesOrdered(xs: seq<string>)
    ensures InFirstOccurrenceOrder(xs, FirstMatches(xs))
    decreases |xs|
  {
    if |xs| > 0 {
      var init, s := xs[..|xs| - 1], xs[|xs| - 1];
      FirstMatchesOrdered(init);
      assert init + [s] == xs;
      OrderedAppend(init, s);
    }
  }

  lemma OrderedAppend(init: seq<string>, s: string)
    requires InFirstOccurrenceOrder(init, FirstMatches(init))
    ensures InFirstOccurrenceOrder(init + [s], FirstMatches(init + [s]))
  {
    var xs := init + [s];
    assert xs[..|xs| - 1] == init;
    var r, r0 := FirstMatches(xs), FirstMatches(init);
    var added := IsE164(s) && s !in init;
    assert r == r0 + (if added then [s] else []);
    FirstMatchesMembers(init);
    forall i | 0 <= i < |r0|
      ensures r0[i] in init && FirstIndex(xs, r0[i]) == FirstIndex(init, r0[i])
    {
      FirstIndexPrefix(init, s, r0[i]);
    }
    forall i, j | 0 <= i < j < |r|
      ensures r[i] in xs && r[j] in xs && FirstIndex(xs, r[i]) < FirstIndex(xs, r[j])
    {
      assert r[i] == r0[i];
      if j < |r0| {
        assert r[j] == r0[j];
        assert FirstIndex(init, r0[i]) < FirstIndex(init, r0[j]);
      } else {
        assert r[j] == s && added;
        FirstIndexUnique(xs, s, |init|);
      }
    }
    assert InFirstOccurrenceOrder(xs, r);
  }

  /** Every candidate is accounted for exactly once: kept, warned about, or a blank. */
  lemma {:induction false} CleanAccounting(xs: seq<string>)
    ensures |Clean(xs).cleaned| + |Clean(xs).warnings| + Blanks(xs) == |xs|
    decreases |xs|
  {
    if |xs| > 0 {
      var init := xs[..|xs| - 1];
      CleanAccounting(init);
      CleanAppend(init, xs[|xs| - 1]);
      assert xs == init + [xs[|xs| - 1]];
    }
  }

  /** The guarantees the rest of the run relies on. */
  lemma CleanGuarantees(xs: seq<string>)
    ensures forall s :: s in Clean(xs).cleaned ==> IsE164(s) && 3 <= |s| <= 16
    ensures forall s :: s in Clean(xs).cleaned <==> IsE164(s) && s in xs
    ensures Distinct(Clean(xs).cleaned)
    ensures |Clean(xs).cleaned| <= |xs|
    ensures InFirstOccurrenceOrder(xs, Clean(xs).cleaned)
  {
    CleanIsReference(xs);
    FirstMatchesMembers(xs);
    FirstMatchesDistinct(xs);
    FirstMatchesShorter(xs);
    FirstMatchesOrdered(xs);
    forall s | s in Clean(xs).cleaned
      ensures 3 <= |s| <= 16
    {
      E164Length(s);
    }
  }

  /** A list of distinct matching numbers is its own cleaning. */
  lemma {:induction false} FirstMatchesFixpoint(ys: seq<string>)
    requires forall i :: 0 <= i < |ys| ==> IsE164(ys[i])
    requires Distinct(ys)
    ensures FirstMatches(ys) == ys
    ensures ExpectedWarnings(ys) == []
    decreases |ys|
  {
    if |ys| > 0 {
      var init, s := ys[..|ys| - 1], ys[|ys| - 1];
      assert Distinct(init) by {
        forall i, j | 0 <= i < j < |init| ensures init[i] != init[j] {
          assert init[i] == ys[i] && init[j] == ys[j];
        }
      }
      FirstMatchesFixpoint(init);
      assert s !in init;
      assert IsE164(s);
      assert init + [s] == ys;
    }
  }

  /** Cleaning is idempotent, and cleaning a cleaned list warns about nothing. */
  lemma CleanIdempotent(xs: seq<string>)
    ensures Clean(Clean(xs).cleaned).cleaned == Clean(xs).cleaned
    ensures Clean(Clean(xs).cleaned).warnings == []
  {
    var ys := Clean(xs).cleaned;
    CleanGuarantees(xs);
    FirstMatchesFixpoint(ys);
    CleanIsReference(ys);
  }

  /** A repeat, a malformed entry and a blank: only the first number is kept,
      with one duplicate and one format warning. */
  lemma CleanExample()
    ensures Clean(["+15551234567", "+15551234567", "bad", ""]).cleaned == ["+15551234567"]
    ensures Clean(["+15551234567", "+15551234567", "bad", ""]).warnings
      == [Duplicate("+15551234567"), NotE164("bad")]
  {
    var a := "+15551234567";
    assert IsE164(a) by { assert AllDigits(a[2..]); }
    assert !IsE164("bad");
    var x0: seq<string> := [];
    var x1 := x0 + [a];
    var x2 := x1 + [a];
    var x3 := x2 + ["bad"];
    var x4 := x3 + [""];
    CleanAppend(x0, a);
    assert Clean(x1).cleaned == [a] && Clean(x1).warnings == [];
    CleanAppend(x1, a);
    assert Clean(x2).cleaned == [a] && Clean(x2).warnings == [Duplicate(a)];
    CleanAppend(x2, "bad");
    CleanAppend(x3, "");
    assert x4 == [a, a, "bad", ""];
  }
}
