/** String primitives the summary script relies on: ASCII lower-casing
    (`str.lower`), substring membership (`needle in hay`), suffix tests
    (`str.endswith`) and splitting on one separator character (`str.split`). */
module Text {

  predicate IsUpper(c: char) {
    'A' <= c <= 'Z'
  }

  /** ASCII lower-casing of one character; every other character is kept. */
  function LowerChar(c: char): (r: char)
    ensures !IsUpper(r)
    ensures IsUpper(c) ==> r as int == c as int + 32
    ensures !IsUpper(c) ==> r == c
  {
    if IsUpper(c) then (c as int + 32) as char else c
  }

  /** `s.lower()` restricted to ASCII letters: each character is lower-cased
      on its own. */
  function Lower(s: string): string {
    seq(|s|, i requires 0 <= i < |s| => LowerChar(s[i]))
  }

  /** Lower-casing distributes over concatenation. */
  lemma LowerAppend(a: string, b: string)
    ensures Lower(a + b) == Lower(a) + Lower(b)
  {
  }

  /** A string is left unchanged by lower-casing exactly when it has no
      upper-case ASCII letter. */
  lemma LowerFixedPoints(s: string)
    ensures Lower(s) == s <==> forall i :: 0 <= i < |s| ==> !IsUpper(s[i])
  {
    if Lower(s) == s {
      forall i | 0 <= i < |s|
        ensures !IsUpper(s[i])
      {
        assert s[i] == LowerChar(s[i]);
      }
    }
  }

  /** Lower-casing twice is lower-casing once. */
  lemma LowerIdempotent(s: string)
    ensures Lower(Lower(s)) == Lower(s)
  {
    LowerFixedPoints(Lower(s));
  }

  /** `needle` occurs in `hay` starting at index `i`. */
  predicate OccursAt(hay: string, needle: string, i: int) {
    0 <= i && i + |needle| <= |hay| && hay[i..i + |needle|] == needle
  }

  /** Python's `needle in hay` for strings. */
  predicate Contains(hay: string, needle: string) {
    exists i | 0 <= i <= |hay| :: OccursAt(hay, needle, i)
  }

  /** A substring of a longer text stays a substring when text is added on
      either side. */
  lemma ContainsExtend(pre: string, hay: string, post: string, needle: string)
    requires Contains(hay, needle)
    ensures Contains(pre + hay + post, needle)
  {
    var i :| 0 <= i <= |hay| && OccursAt(hay, needle, i);
    var whole := pre + hay + post;
    assert whole[|pre| + i..|pre| + i + |needle|] == hay[i..i + |needle|];
    assert OccursAt(whole, needle, |pre| + i);
  }

  /** Containment is transitive. */
  lemma ContainsTransitive(hay: string, mid: string, needle: string)
    requires Contains(hay, mid) && Contains(mid, needle)
    ensures Contains(hay, needle)
  {
    var i :| 0 <= i <= |hay| && OccursAt(hay, mid, i);
    var j :| 0 <= j <= |mid| && OccursAt(mid, needle, j);
    forall k | 0 <= k < |needle|
      ensures hay[i + j + k] == needle[k]
    {
      assert mid[j + k] == needle[k];
      assert hay[i + (j + k)] == mid[j + k];
    }
    assert OccursAt(hay, needle, i + j);
  }

  /** The left-to-right scan behind `needle in hay`: reports whether the
      needle occurs and, if it does, the first index where it starts. */
  method Find(hay: string, needle: string) returns (found: bool, at: nat)
    ensures found <==> Contains(hay, needle)
    ensures found ==> OccursAt(hay, needle, at)
    ensures found ==> forall j :: 0 <= j < at ==> !OccursAt(hay, needle, j)
  {
    if |needle| > |hay| {
      return false, 0;
    }
    var i := 0;
    while i <= |hay| - |needle|
      invariant 0 <= i <= |hay| - |needle| + 1
      invariant forall j :: 0 <= j < i ==> !OccursAt(hay, needle, j)
    {
      if hay[i..i + |needle|] == needle {
        assert OccursAt(hay, needle, i);
        return true, i;
      }
      i := i + 1;
    }
    return false, 0;
  }

  /** Python's `s.endswith(suffix)`. */
  predicate EndsWith(s: string, suffix: string) {
    |suffix| <= |s| && s[|s| - |suffix|..] == suffix
  }

  /** Inverse of `Split`: the parts glued back together with the separator. */
  function Join(parts: seq<string>, sep: char): string {
    if |parts| == 0 then ""
    else if |parts| == 1 then parts[0]
    else parts[0] + [sep] + Join(parts[1..], sep)
  }

  /** Python's `s.split(sep)` for a one-character separator: the text between
      consecutive separators, so there is always one more field than there are
      separators, and empty fields are kept. */
  function Split(s: string, sep: char): (parts: seq<string>)
    ensures |parts| == multiset(s)[sep] + 1
  {
    if |s| == 0 then [""]
    else
      var rest := Split(s[1..], sep);
      assert s == [s[0]] + s[1..];
      if s[0] == sep then [""] + rest
      else [[s[0]] + rest[0]] + rest[1..]
  }

  /** The fields of a split hold no separator and glue back into the
      original string. */
  lemma {:induction false} SplitFields(s: string, sep: char)
    ensures forall k :: 0 <= k < |Split(s, sep)| ==> sep !in Split(s, sep)[k]
    ensures Join(Split(s, sep), sep) == s
  {
    SplitFieldsFree(s, sep);
    SplitRejoins(s, sep);
  }

  /** No field of a split holds the separator. */
  lemma {:induction false} SplitFieldsFree(s: string, sep: char)
    ensures forall k :: 0 <= k < |Split(s, sep)| ==> sep !in Split(s, sep)[k]
  {
    if |s| > 0 {
      var rest := Split(s[1..], sep);
      var parts := Split(s, sep);
      SplitFieldsFree(s[1..], sep);
      if s[0] == sep {
        assert parts == [""] + rest;
        assert forall k :: 1 <= k < |parts| ==> parts[k] == rest[k - 1];
      } else {
        assert parts == [[s[0]] + rest[0]] + rest[1..];
        forall k | 0 <= k < |parts|
          ensures sep !in parts[k]
        {
          if k > 0 {
            assert parts[k] == rest[k];
          } else {
            assert sep !in rest[0];
          }
        }
      }
    }
  }

  /** Joining the fields of a split with the separator gives the string
      back. */
  lemma {:induction false} SplitRejoins(s: string, sep: char)
    ensures Join(Split(s, sep), sep) == s
  {
    if |s| > 0 {
      var tail := s[1..];
      var rest := Split(tail, sep);
      SplitRejoins(tail, sep);
      SplitStep(s, sep);
      if s[0] == sep {
        JoinPrepend("", rest, sep);
      } else {
        JoinExtendFirst([s[0]], rest, sep);
      }
      assert [s[0]] + tail == s;
    }
  }

  /** One step of `Split`: the first character either ends an empty first
      field or starts the first field of the rest. */
  lemma SplitStep(s: string, sep: char)
    requires |s| > 0
    ensures var rest := Split(s[1..], sep);
      Split(s, sep) == if s[0] == sep then [""] + rest else [[s[0]] + rest[0]] + rest[1..]
  {
  }

  /** Joining after a new first field puts one separator after it. */
  lemma JoinPrepend(field: string, parts: seq<string>, sep: char)
    requires |parts| >= 1
    ensures Join([field] + parts, sep) == field + [sep] + Join(parts, sep)
  {
    assert ([field] + parts)[1..] == parts;
  }

  /** Extending the first field extends the joined string by the same
      prefix. */
  lemma JoinExtendFirst(prefix: string, parts: seq<string>, sep: char)
    requires |parts| >= 1
    ensures Join([prefix + parts[0]] + parts[1..], sep) == prefix + Join(parts, sep)
  {
    if |parts| > 1 {
      JoinPrepend(prefix + parts[0], parts[1..], sep);
      JoinPrepend(parts[0], parts[1..], sep);
      assert parts == [parts[0]] + parts[1..];
    }
  }

  /** Splitting a joined sequence of separator-free fields gives the fields
      back. */
  lemma {:induction false} SplitJoin(parts: seq<string>, sep: char)
    requires |parts| >= 1
    requires forall k :: 0 <= k < |parts| ==> sep !in parts[k]
    ensures Split(Join(parts, sep), sep) == parts
  {
    if |parts| == 1 {
      SplitFree(parts[0], sep);
    } else {
      SplitJoin(parts[1..], sep);
      SplitAround(parts[0], Join(parts[1..], sep), sep);
    }
  }

  /** A separator-free string splits into itself alone. */
  lemma {:induction false} SplitFree(s: string, sep: char)
    requires sep !in s
    ensures Split(s, sep) == [s]
  {
    var parts := Split(s, sep);
    assert multiset(s)[sep] == 0;
    SplitFields(s, sep);
  }

  /** Splitting `head + sep + tail`, where `head` holds no separator, gives
      `head` followed by the fields of `tail`. */
  lemma {:induction false} SplitAround(head: string, tail: string, sep: char)
    requires sep !in head
    ensures Split(head + [sep] + tail, sep) == [head] + Split(tail, sep)
  {
    if |head| == 0 {
      assert head + [sep] + tail == [sep] + tail;
      assert ([sep] + tail)[1..] == tail;
    } else {
      var s := head + [sep] + tail;
      assert s[1..] == head[1..] + [sep] + tail;
      SplitAround(head[1..], tail, sep);
      assert [head[0]] + head[1..] == head;
    }
  }

  /** The first field of a split is the longest separator-free prefix: it is
      either the whole string or is followed by the separator. */
  lemma SplitFirstField(s: string, sep: char)
    ensures Split(s, sep)[0] <= s
    ensures sep !in Split(s, sep)[0]
    ensures Split(s, sep)[0] == s || s[|Split(s, sep)[0]|] == sep
  {
    var parts := Split(s, sep);
    SplitFields(s, sep);
    if |parts| > 1 {
      assert s == parts[0] + [sep] + Join(parts[1..], sep);
    }
  }
}
