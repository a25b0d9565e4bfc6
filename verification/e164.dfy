/** The E.164 format gate of cmd/root.go: the pattern `^\+[1-9]\d{1,14}$`
    (ITU-T Recommendation E.164 allows at most 15 digits) as Go's RE2 engine
    reads it: `\d` is the ASCII range 0-9 only, and `$` without the multi-line
    flag means end of text, so a trailing '\r' or '\n' makes the match fail. */
module E164 {

  /** Most digits an E.164 number may carry, the leading one included. */
  const MaxDigits: nat := 15

  predicate IsAsciiDigit(c: char) {
    '0' <= c <= '9'
  }

  predicate IsLeadingDigit(c: char) {
    '1' <= c <= '9'
  }

  /** The declarative reading of the pattern: '+', one digit 1-9, then
      between 1 and MaxDigits - 1 further ASCII digits, and nothing else. */
  predicate IsE164(s: string)
    ensures IsE164(s) ==> 3 <= |s| <= 1 + MaxDigits
    ensures IsE164(s) ==> forall i :: 0 <= i < |s| ==> s[i] != ' ' && s[i] != '\r' && s[i] != '\n'
  {
    && |s| >= 2
    && s[0] == '+'
    && IsLeadingDigit(s[1])
    && 1 <= |s| - 2 <= MaxDigits - 1
    && AllDigits(s[2..])
  }

  /** Every character of `t` is an ASCII digit. */
  predicate AllDigits(t: string) {
    forall i :: 0 <= i < |t| ==> IsAsciiDigit(t[i])
  }

  /** A matched string is 3 to 16 characters long and carries 2 to 15 digits. */
  lemma E164Length(s: string)
    requires IsE164(s)
    ensures 3 <= |s| <= 16
    ensures 2 <= |s| - 1 <= MaxDigits
    ensures s != ""
  {
  }

  /** A line read from a file with CRLF endings keeps its '\r' and is rejected. */
  lemma CarriageReturnRejected(s: string)
    ensures !IsE164(s + "\r")
  {
    var t := s + "\r";
    if |t| >= 3 {
      assert t[2..][|t| - 3] == '\r';
    }
  }

  // ---------------------------------------------------------------------
  // The pattern read as the automaton a regex engine compiles it to:
  // one state per position in `^\+[1-9]\d{1,14}$`.
  // ---------------------------------------------------------------------

  datatype MatchState =
    | Start               // before `\+`
    | AfterPlus           // before `[1-9]`
    | InDigits(count: nat) // inside `\d{1,14}`, having read `count` repetitions
    | Dead                // no match is possible any more

  function Next(st: MatchState, c: char): MatchState {
    match st
    case Start => if c == '+' then AfterPlus else Dead
    case AfterPlus => if IsLeadingDigit(c) then InDigits(0) else Dead
    case InDigits(n) => if IsAsciiDigit(c) && n < MaxDigits - 1 then InDigits(n + 1) else Dead
    case Dead => Dead
  }

  function Consume(st: MatchState, s: string): MatchState
    decreases |s|
  {
    if |s| == 0 then st else Consume(Next(st, s[0]), s[1..])
  }

  /** `$` is reached with `\d{1,14}` satisfied. */
  predicate Accepting(st: MatchState) {
    st.InDigits? && 1 <= st.count
  }

  predicate Matches(s: string) {
    Accepting(Consume(Start, s))
  }

  /** Inside the digit run, the automaton survives exactly as long as it reads
      digits and the repetition bound holds. */
  lemma {:induction false} ConsumeDigits(n: nat, t: string)
    requires n <= MaxDigits - 1
    ensures AllDigits(t) && n + |t| <= MaxDigits - 1 ==> Consume(InDigits(n), t) == InDigits(n + |t|)
    ensures !(AllDigits(t) && n + |t| <= MaxDigits - 1) ==> Consume(InDigits(n), t) == Dead
    decreases |t|
  {
    if |t| > 0 {
      if IsAsciiDigit(t[0]) && n < MaxDigits - 1 {
        ConsumeDigits(n + 1, t[1..]);
        assert AllDigits(t) <==> AllDigits(t[1..]);
      } else {
        DeadIsFinal(t[1..]);
      }
    }
  }

  lemma {:induction false} DeadIsFinal(t: string)
    ensures Consume(Dead, t) == Dead
    decreases |t|
  {
    if |t| > 0 {
      DeadIsFinal(t[1..]);
    }
  }

  /** The automaton and the declarative predicate accept the same strings. */
  lemma MatchesIffE164(s: string)
    ensures Matches(s) <==> IsE164(s)
  {
    if |s| == 0 {
    } else if s[0] != '+' {
      DeadIsFinal(s[1..]);
    } else if |s| == 1 {
      assert Consume(Start, s) == Consume(AfterPlus, s[1..]);
    } else if !IsLeadingDigit(s[1]) {
      assert Consume(Start, s) == Consume(Dead, s[2..]);
      DeadIsFinal(s[2..]);
    } else {
      assert Consume(Start, s) == Consume(InDigits(0), s[2..]);
      ConsumeDigits(0, s[2..]);
    }
  }
}
