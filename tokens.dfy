/**
 * Go's `strings.Split(s, sep)` for a one-character separator, which the job
 * client uses to turn a command line into the container's argv, together with
 * its inverse `strings.Join`.
 */
module Tokens {

  /** The number of occurrences of `c` in `s` (Go's `strings.Count` for one character). */
  function Occurrences(s: string, c: char): nat
  {
    if s == [] then 0 else (if s[0] == c then 1 else 0) + Occurrences(s[1..], c)
  }

  /** No piece contains the separator. */
  predicate FreeOf(pieces: seq<string>, sep: char)
  {
    forall i :: 0 <= i < |pieces| ==> sep !in pieces[i]
  }

  /**
   * The substrings of `s` between occurrences of `sep`. Adjacent separators and
   * separators at either end give empty pieces, and the empty string gives [""].
   */
  function Split(s: string, sep: char): (pieces: seq<string>)
    ensures |pieces| == Occurrences(s, sep) + 1
    ensures FreeOf(pieces, sep)
    decreases |s|
  {
    if s == [] then [""]
    else
      var rest := Split(s[1..], sep);
      if s[0] == sep then [""] + rest
      else [[s[0]] + rest[0]] + rest[1..]
  }

  /** Go's `strings.Join(pieces, string(sep))`. */
  function Join(pieces: seq<string>, sep: char): string
    decreases |pieces|
  {
    if |pieces| == 0 then ""
    else if |pieces| == 1 then pieces[0]
    else pieces[0] + [sep] + Join(pieces[1..], sep)
  }

  /** Putting one character in front of the first piece puts it in front of the joined string. */
  lemma JoinPrepend(c: char, pieces: seq<string>, sep: char)
    requires |pieces| >= 1
    ensures Join([[c] + pieces[0]] + pieces[1..], sep) == [c] + Join(pieces, sep)
  {
    var moved := [[c] + pieces[0]] + pieces[1..];
    if |pieces| > 1 {
      assert moved[1..] == pieces[1..];
    }
  }

  /** Joining the pieces of a split with the same separator gives back the string. */
  lemma {:induction false} JoinSplit(s: string, sep: char)
    ensures Join(Split(s, sep), sep) == s
    decreases |s|
  {
    if s != [] {
      var rest := Split(s[1..], sep);
      JoinSplit(s[1..], sep);
      if s[0] == sep {
        assert ([""] + rest)[1..] == rest;
      } else {
        JoinPrepend(s[0], rest, sep);
      }
      assert s == [s[0]] + s[1..];
    }
  }

  /** Splitting after a separator-free prefix glues that prefix to the first piece. */
  lemma {:induction false} SplitAfterPrefix(p: string, t: string, sep: char)
    requires sep !in p
    ensures Split(p + t, sep) == [p + Split(t, sep)[0]] + Split(t, sep)[1..]
    decreases |p|
  {
    var rest := Split(t, sep);
    if p == [] {
      assert p + t == t;
      assert p + rest[0] == rest[0];
      assert rest == [rest[0]] + rest[1..];
    } else {
      SplitAfterPrefix(p[1..], t, sep);
      assert (p + t)[1..] == p[1..] + t;
      assert [p[0]] + (p[1..] + Split(t, sep)[0]) == p + Split(t, sep)[0];
    }
  }

  /** Splitting a join of separator-free pieces gives back the pieces. */
  lemma {:induction false} SplitJoin(pieces: seq<string>, sep: char)
    requires |pieces| >= 1
    requires FreeOf(pieces, sep)
    ensures Split(Join(pieces, sep), sep) == pieces
    decreases |pieces|
  {
    assert sep !in pieces[0];
    if |pieces| == 1 {
      SplitAfterPrefix(pieces[0], "", sep);
      assert pieces[0] + "" == pieces[0];
    } else {
      var tail := pieces[1..];
      assert FreeOf(tail, sep) by {
        forall i | 0 <= i < |tail| ensures sep !in tail[i] {
          assert tail[i] == pieces[i + 1];
        }
      }
      SplitJoin(tail, sep);
      var after := [sep] + Join(tail, sep);
      assert after[1..] == Join(tail, sep);
      assert Split(after, sep) == [""] + tail;
      assert pieces[0] + [sep] + Join(tail, sep) == pieces[0] + after;
      SplitAfterPrefix(pieces[0], after, sep);
      assert pieces[0] + "" == pieces[0];
      assert pieces == [pieces[0]] + tail;
    }
  }

  /**
   * Two adjacent spaces give an empty token, and the empty command gives the
   * single empty token.
   */
  lemma SplitExamples()
    ensures Split("echo  hello", ' ') == ["echo", "", "hello"]
    ensures Split("echo hello", ' ') == ["echo", "hello"]
    ensures Split("", ' ') == [""]
  {
    var adjacent := ["echo", "", "hello"];
    assert FreeOf(adjacent, ' ');
    assert Join(adjacent, ' ') == "echo  hello";
    SplitJoin(adjacent, ' ');
    var plain := ["echo", "hello"];
    assert FreeOf(plain, ' ');
    assert Join(plain, ' ') == "echo hello";
    SplitJoin(plain, ' ');
  }
}
