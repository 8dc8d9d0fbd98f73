/**
 * The two Python string operations the core relies on: `str.strip(chars)`,
 * which removes every leading and trailing character drawn from a set, and
 * `str.split(sep)` with a one-character separator, together with its inverse
 * `sep.join(fields)`.
 */
module Text {

  /** Index of the first character of `s` that is not in `chars` (`|s|` if there is none). */
  function LeftEdge(s: string, chars: set<char>): (i: nat)
    ensures i <= |s|
    ensures forall k :: 0 <= k < i ==> s[k] in chars
    ensures i < |s| ==> s[i] !in chars
    decreases |s|
  {
    if s != [] && s[0] in chars then 1 + LeftEdge(s[1..], chars) else 0
  }

  /** One past the last character of `s[lo..]` that is not in `chars` (`lo` if there is none). */
  function RightEdge(s: string, lo: nat, chars: set<char>): (j: nat)
    requires lo <= |s|
    ensures lo <= j <= |s|
    ensures forall k :: j <= k < |s| ==> s[k] in chars
    ensures j > lo ==> s[j - 1] !in chars
    decreases |s|
  {
    if |s| > lo && s[|s| - 1] in chars then RightEdge(s[..|s| - 1], lo, chars) else |s|
  }

  /** Python's `s.strip(chars)`: scan inwards from both ends past characters in `chars`. */
  function Strip(s: string, chars: set<char>): (r: string)
    ensures |r| <= |s|
    ensures r != [] ==> r[0] !in chars && r[|r| - 1] !in chars
    ensures r == [] <==> forall k :: 0 <= k < |s| ==> s[k] in chars
  {
    var i := LeftEdge(s, chars);
    s[i..RightEdge(s, i, chars)]
  }

  /**
   * Reference characterisation of Strip: whenever `s` is a core `r` wrapped in
   * characters from `chars`, and `r` neither starts nor ends with one of them,
   * stripping `s` gives back exactly `r`.
   */
  lemma StripUnique(s: string, a: string, r: string, b: string, chars: set<char>)
    requires s == a + r + b
    requires forall k :: 0 <= k < |a| ==> a[k] in chars
    requires forall k :: 0 <= k < |b| ==> b[k] in chars
    requires r != [] ==> r[0] !in chars && r[|r| - 1] !in chars
    ensures Strip(s, chars) == r
  {
    if r == [] {
      forall k | 0 <= k < |s| ensures s[k] in chars {
        if k < |a| { assert s[k] == a[k]; } else { assert s[k] == b[k - |a|]; }
      }
    } else {
      var i := LeftEdge(s, chars);
      assert s[|a|] == r[0];
      assert i == |a|;
      var j := RightEdge(s, i, chars);
      assert s[|a| + |r| - 1] == r[|r| - 1];
      assert j == |a| + |r|;
      assert s[i..j] == r;
    }
  }

  /** Stripping twice is the same as stripping once. */
  lemma StripIdempotent(s: string, chars: set<char>)
    ensures Strip(Strip(s, chars), chars) == Strip(s, chars)
  {
    var r := Strip(s, chars);
    assert r == [] + r + [];
    StripUnique(r, [], r, [], chars);
  }

  /** Python's `s.split(sep)`: the fields between separators, always at least one. */
  function Split(s: string, sep: char): (fields: seq<string>)
    ensures |fields| >= 1
    ensures forall k :: 0 <= k < |fields| ==> sep !in fields[k]
    decreases |s|
  {
    if s == [] then [[]]
    else
      var rest := Split(s[1..], sep);
      if s[0] == sep then [[]] + rest else [[s[0]] + rest[0]] + rest[1..]
  }

  /** Python's `sep.join(fields)`. */
  function Join(fields: seq<string>, sep: char): string
    requires |fields| >= 1
    decreases |fields|
  {
    if |fields| == 1 then fields[0] else fields[0] + [sep] + Join(fields[1..], sep)
  }

  /** Number of occurrences of `c` in `s`. */
  function Occurrences(s: string, c: char): nat
    decreases |s|
  {
    if s == [] then 0 else (if s[0] == c then 1 else 0) + Occurrences(s[1..], c)
  }

  /** Joining the fields of a split restores the text: no character is lost or added. */
  lemma {:induction false} JoinSplit(s: string, sep: char)
    ensures Join(Split(s, sep), sep) == s
    decreases |s|
  {
    if s != [] {
      var rest := Split(s[1..], sep);
      JoinSplit(s[1..], sep);
      if s[0] == sep {
        assert Split(s, sep) == [[]] + rest;
        assert ([[]] + rest)[1..] == rest;
      } else {
        var fields := Split(s, sep);
        assert fields == [[s[0]] + rest[0]] + rest[1..];
        if |rest| == 1 {
          assert Join(rest, sep) == rest[0];
        } else {
          assert Join(rest, sep) == rest[0] + [sep] + Join(rest[1..], sep);
          assert fields[1..] == rest[1..];
        }
      }
    }
  }

  /** A split yields one more field than there are separators. */
  lemma {:induction false} SplitFieldCount(s: string, sep: char)
    ensures |Split(s, sep)| == Occurrences(s, sep) + 1
    decreases |s|
  {
    if s != [] {
      SplitFieldCount(s[1..], sep);
    }
  }

  /** A field followed by a separator splits off as the first field. */
  lemma {:induction false} SplitAfterField(f: string, t: string, sep: char)
    requires sep !in f
    ensures Split(f + [sep] + t, sep) == [f] + Split(t, sep)
    decreases |f|
  {
    var s := f + [sep] + t;
    if f == [] {
      assert s == [sep] + t && s[1..] == t;
    } else {
      assert s[0] == f[0] && s[1..] == f[1..] + [sep] + t;
      SplitAfterField(f[1..], t, sep);
      assert [f[0]] + f[1..] == f;
    }
  }

  /** Text without a separator splits into itself alone. */
  lemma {:induction false} SplitSingleField(f: string, sep: char)
    requires sep !in f
    ensures Split(f, sep) == [f]
    decreases |f|
  {
    if f != [] {
      SplitSingleField(f[1..], sep);
      assert [f[0]] + f[1..] == f;
    }
  }

  /** Splitting a join of separator-free fields gives the fields back. */
  lemma {:induction false} SplitJoin(fields: seq<string>, sep: char)
    requires |fields| >= 1
    requires forall k :: 0 <= k < |fields| ==> sep !in fields[k]
    ensures Split(Join(fields, sep), sep) == fields
    decreases |fields|
  {
    if |fields| == 1 {
      SplitSingleField(fields[0], sep);
    } else {
      SplitJoin(fields[1..], sep);
      SplitAfterField(fields[0], Join(fields[1..], sep), sep);
      assert [fields[0]] + fields[1..] == fields;
    }
  }
}
