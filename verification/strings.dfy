/** Character-separated splitting as the Go standard library's `strings`
    package performs it, for a one-character separator. */
module Strings {
  import opened Results

  /** Position of the first occurrence of `c` in `s`. */
  function IndexOf(s: string, c: char): (i: nat)
    requires c in s
    ensures i < |s| && s[i] == c
    ensures c !in s[..i]
  {
    if s[0] == c then 0
    else
      assert s == [s[0]] + s[1..];
      var j := IndexOf(s[1..], c);
      assert s[..1 + j] == [s[0]] + s[1..][..j];
      1 + j
  }

  /** The first occurrence of `c` in `a + [c] + b` is the one right after `a`
      when `a` itself has no `c`. */
  lemma IndexOfAfterPrefix(a: string, c: char, b: string)
    requires c !in a
    ensures c in a + [c] + b
    ensures IndexOf(a + [c] + b, c) == |a|
  {
    var s := a + [c] + b;
    assert s[|a|] == c;
    assert forall j :: 0 <= j < |a| ==> s[j] == a[j];
  }

  /** `strings.Split(s, sep)`: the pieces of `s` between consecutive
      separators. There is always at least one piece (the empty string splits
      into one empty piece) and no piece contains the separator. */
  function Split(s: string, sep: char): (parts: seq<string>)
    ensures |parts| >= 1
    ensures forall i :: 0 <= i < |parts| ==> sep !in parts[i]
    decreases |s|
  {
    if sep !in s then [s]
    else
      var i := IndexOf(s, sep);
      [s[..i]] + Split(s[i + 1..], sep)
  }

  /** `strings.Join(parts, sep)` for a one-character separator. */
  function Join(parts: seq<string>, sep: char): string
  {
    if |parts| == 0 then ""
    else if |parts| == 1 then parts[0]
    else parts[0] + [sep] + Join(parts[1..], sep)
  }

  /** Joining a non-empty tail after one more piece puts one separator
      between them. */
  lemma JoinCons(a: string, rest: seq<string>, sep: char)
    requires |rest| >= 1
    ensures Join([a] + rest, sep) == a + [sep] + Join(rest, sep)
  {
    assert ([a] + rest)[1..] == rest;
  }

  /** Splitting a line that holds the separator takes off the text before the
      first separator. */
  lemma SplitFirst(s: string, sep: char)
    requires sep in s
    ensures s == s[..IndexOf(s, sep)] + [sep] + s[IndexOf(s, sep) + 1..]
    ensures Split(s, sep) == [s[..IndexOf(s, sep)]] + Split(s[IndexOf(s, sep) + 1..], sep)
  {
  }

  /** Splitting loses nothing: joining the pieces back gives the line. */
  lemma {:induction false} JoinSplit(s: string, sep: char)
    ensures Join(Split(s, sep), sep) == s
    decreases |s|
  {
    if sep in s {
      var i := IndexOf(s, sep);
      var a, b := s[..i], s[i + 1..];
      SplitFirst(s, sep);
      JoinSplit(b, sep);
      JoinCons(a, Split(b, sep), sep);
    }
  }

  /** A separator-free piece followed by the separator is split off first. */
  lemma SplitAfterPiece(a: string, sep: char, b: string)
    requires sep !in a
    ensures Split(a + [sep] + b, sep) == [a] + Split(b, sep)
  {
    var s := a + [sep] + b;
    IndexOfAfterPrefix(a, sep, b);
    assert s[..|a|] == a;
    assert s[|a| + 1..] == b;
  }

  /** Splitting inverts joining, for any non-empty list of separator-free
      pieces. */
  lemma {:induction false} SplitJoin(parts: seq<string>, sep: char)
    requires |parts| >= 1
    requires forall i :: 0 <= i < |parts| ==> sep !in parts[i]
    ensures Split(Join(parts, sep), sep) == parts
  {
    if |parts| > 1 {
      SplitAfterPiece(parts[0], sep, Join(parts[1..], sep));
      SplitJoin(parts[1..], sep);
      assert parts == [parts[0]] + parts[1..];
    }
  }

  /** A trailing separator yields one more, empty, piece. */
  lemma {:induction false} SplitTrailingSeparator(s: string, sep: char)
    ensures Split(s + [sep], sep) == Split(s, sep) + [""]
    decreases |s|
  {
    if sep !in s {
      calc {
        Split(s + [sep], sep);
        { assert s + [sep] == s + [sep] + ""; }
        Split(s + [sep] + "", sep);
        { SplitAfterPiece(s, sep, ""); }
        [s] + Split("", sep);
        [s] + [""];
      }
    } else {
      var i := IndexOf(s, sep);
      var a, b := s[..i], s[i + 1..];
      Regroup(s, i, sep);
      SplitTrailingSeparator(b, sep);
      SplitTrailingStep(a, sep, b);
    }
  }

  /** Cutting `s + [sep]` at an earlier separator position `i`. */
  lemma Regroup(s: string, i: nat, sep: char)
    requires i < |s| && s[i] == sep
    ensures s == s[..i] + [sep] + s[i + 1..]
    ensures s + [sep] == s[..i] + [sep] + (s[i + 1..] + [sep])
  {
    assert s == s[..i] + [sep] + s[i + 1..];
  }

  /** One step of the induction above: the first piece is split off before
      and after the trailing separator alike. */
  lemma SplitTrailingStep(a: string, sep: char, b: string)
    requires sep !in a
    requires Split(b + [sep], sep) == Split(b, sep) + [""]
    ensures Split(a + [sep] + (b + [sep]), sep) == Split(a + [sep] + b, sep) + [""]
  {
    SplitAfterPiece(a, sep, b + [sep]);
    SplitAfterPiece(a, sep, b);
    assert [a] + (Split(b, sep) + [""]) == [a] + Split(b, sep) + [""];
  }

  /** `strings.SplitN(s, sep, 2)` read as Go callers read it: `None` when the
      result has one element (no separator), otherwise the text before the
      FIRST separator and everything after it. */
  function Cut(s: string, sep: char): (r: Option<(string, string)>)
    ensures r.None? <==> sep !in s
    ensures r.Some? ==> sep !in r.value.0 && s == r.value.0 + [sep] + r.value.1
  {
    if sep !in s then None
    else
      var i := IndexOf(s, sep);
      assert s == s[..i] + [sep] + s[i + 1..];
      Some((s[..i], s[i + 1..]))
  }

  /** Only the first separator cuts: whatever follows it, further separators
      included, is kept verbatim as the second half. */
  lemma CutAtFirst(k: string, sep: char, v: string)
    requires sep !in k
    ensures Cut(k + [sep] + v, sep) == Some((k, v))
  {
    var s := k + [sep] + v;
    IndexOfAfterPrefix(k, sep, v);
    assert s[..|k|] == k;
    assert s[|k| + 1..] == v;
  }
}
