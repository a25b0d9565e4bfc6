/** processFileContents of cmd/root.go: the file's text becomes one candidate
    per line, with Go's `strings.Split(contents, "\n")` semantics. */
module FileLines {

  function CountNewlines(s: string): nat
    decreases |s|
  {
    if |s| == 0 then 0 else (if s[0] == '\n' then 1 else 0) + CountNewlines(s[1..])
  }

  /** `strings.Join(lines, "\n")`, the inverse of the split. */
  function Join(lines: seq<string>): string
    decreases |lines|
  {
    if |lines| == 0 then ""
    else if |lines| == 1 then lines[0]
    else lines[0] + "\n" + Join(lines[1..])
  }

  /** Split on every '\n'. The pieces carry no '\n'; a trailing '\r' stays in
      its piece; the empty text gives one empty piece, never an empty list. */
  function ProcessFileContents(contents: string): (lines: seq<string>)
    ensures |lines| == CountNewlines(contents) + 1
    ensures forall i :: 0 <= i < |lines| ==> '\n' !in lines[i]
    ensures Join(lines) == contents
    decreases |contents|
  {
    if |contents| == 0 then [""]
    else
      var rest := ProcessFileContents(contents[1..]);
      if contents[0] == '\n' then [""] + rest
      else [[contents[0]] + rest[0]] + rest[1..]
  }

  /** The other round trip: lines without '\n' come back from their join. */
  lemma {:induction false} SplitJoin(lines: seq<string>)
    requires |lines| >= 1
    requires forall i :: 0 <= i < |lines| ==> '\n' !in lines[i]
    ensures ProcessFileContents(Join(lines)) == lines
    decreases |lines|, |lines[0]|
  {
    if |lines[0]| > 0 {
      // peel the first character of the first line
      var c, tail := lines[0][0], [lines[0][1..]] + lines[1..];
      assert '\n' !in tail[0];
      SplitJoin(tail);
      assert Join(lines) == [c] + Join(tail) by {
        if |lines| == 1 {
        } else {
          assert tail[1..] == lines[1..];
        }
      }
      assert ([c] + Join(tail))[1..] == Join(tail);
      assert c != '\n' by { assert lines[0][0] == c; }
      assert [c] + lines[0][1..] == lines[0];
      assert [lines[0]] + lines[1..] == lines;
    } else if |lines| > 1 {
      var tail := lines[1..];
      SplitJoin(tail);
      assert Join(lines) == "\n" + Join(tail);
      assert ("\n" + Join(tail))[1..] == Join(tail);
    }
  }
}
