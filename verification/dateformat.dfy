/** The shape check applied to the run date before anything else happens:
    `re.match(r"^\d{4}-\d{2}-\d{2}$", run_date)`. */
module DateFormat {

  /** One position of a fixed-width pattern: `\d` or a literal character. */
  datatype Atom = Digit | Literal(c: char)

  predicate IsDigit(c: char) {
    '0' <= c <= '9'
  }

  predicate AtomMatches(a: Atom, c: char) {
    match a
    case Digit => IsDigit(c)
    case Literal(l) => c == l
  }

  /** `a{n}`: the atom repeated `n` times. */
  function Repeat(a: Atom, n: nat): (r: seq<Atom>)
    ensures |r| == n
    ensures forall i :: 0 <= i < n ==> r[i] == a
  {
    if n == 0 then [] else [a] + Repeat(a, n - 1)
  }

  /** `\d{4}-\d{2}-\d{2}` with the counted repetitions expanded. */
  function DatePattern(): seq<Atom> {
    Repeat(Digit, 4) + [Literal('-')] + Repeat(Digit, 2) + [Literal('-')] + Repeat(Digit, 2)
  }

  /** A pattern of atoms matches the whole of `s`, one atom per character. */
  predicate MatchesExactly(pattern: seq<Atom>, s: string)
    decreases |pattern|
  {
    if |pattern| == 0 then |s| == 0
    else |s| > 0 && AtomMatches(pattern[0], s[0]) && MatchesExactly(pattern[1..], s[1..])
  }

  /** The anchored match: `^` pins the start, and Python's `$` matches at the
      end of the string or just before a final newline. */
  predicate IsRunDate(s: string) {
    || MatchesExactly(DatePattern(), s)
    || (|s| > 0 && s[|s| - 1] == '\n' && MatchesExactly(DatePattern(), s[..|s| - 1]))
  }

  /** An atom sequence matches exactly the strings of its length whose every
      character matches the atom in the same position. */
  lemma {:induction false} MatchesExactlyPointwise(pattern: seq<Atom>, s: string)
    ensures MatchesExactly(pattern, s) <==>
      |s| == |pattern| && forall i :: 0 <= i < |s| ==> AtomMatches(pattern[i], s[i])
    decreases |pattern|
  {
    if |pattern| > 0 && |s| > 0 {
      MatchesExactlyPointwise(pattern[1..], s[1..]);
      if |s| == |pattern| && forall i :: 0 <= i < |s| ==> AtomMatches(pattern[i], s[i]) {
        forall i | 0 <= i < |s| - 1
          ensures AtomMatches(pattern[1..][i], s[1..][i])
        {
          assert AtomMatches(pattern[i + 1], s[i + 1]);
        }
      }
    }
  }

  /** Digits everywhere except dashes at indices 4 and 7, ten characters in
      all. */
  predicate IsDateShape(s: string) {
    && |s| == 10
    && s[4] == '-' && s[7] == '-'
    && forall i :: 0 <= i < 10 && i != 4 && i != 7 ==> IsDigit(s[i])
  }

  /** Without the trailing newline, the pattern accepts exactly the ten
      character strings `DDDD-DD-DD`. */
  lemma DatePatternShape(s: string)
    ensures MatchesExactly(DatePattern(), s) <==> IsDateShape(s)
  {
    var p := DatePattern();
    MatchesExactlyPointwise(p, s);
    assert forall i :: 0 <= i < 10 && i != 4 && i != 7 ==> p[i] == Digit;
    assert p[4] == Literal('-') && p[7] == Literal('-');
  }

  /** The check accepts `DDDD-DD-DD` and that same shape followed by one
      newline, and nothing else. */
  lemma IsRunDateShape(s: string)
    ensures IsRunDate(s) <==>
      IsDateShape(s) || (|s| == 11 && s[10] == '\n' && IsDateShape(s[..10]))
  {
    DatePatternShape(s);
    if |s| > 0 {
      DatePatternShape(s[..|s| - 1]);
    }
  }

  /** The example date of the usage message is accepted. */
  lemma AcceptsExampleDate(s: string)
    requires s == "2025-01-23"
    ensures IsRunDate(s)
  {
    IsRunDateShape(s);
  }

  /** A month without its leading zero is rejected. */
  lemma RejectsUnpaddedMonth(s: string)
    requires s == "2025-1-23"
    ensures !IsRunDate(s)
  {
    IsRunDateShape(s);
  }
}
