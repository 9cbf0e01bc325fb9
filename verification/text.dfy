/** Splitting a string on a separator character and joining pieces back
    together, with the semantics of Python's `str.split(sep)` and
    `sep.join(pieces)` for a one-character separator. */
module Text {

  /** The pieces of `s` between occurrences of `c`, in order. Like Python's
      `s.split(c)`, the result is never empty: the empty string splits into
      one empty piece, and `n` separators always give `n + 1` pieces. */
  function Split(s: string, c: char): (parts: seq<string>)
    ensures |parts| >= 1
    decreases |s|
  {
    if |s| == 0 then [""]
    else
      var rest := Split(s[1..], c);
      if s[0] == c then [""] + rest
      else [[s[0]] + rest[0]] + rest[1..]
  }

  /** The pieces glued together with `c` between neighbours, like Python's
      `c.join(parts)`: no pieces give the empty string. */
  function Join(parts: seq<string>, c: char): (r: string)
  {
    if |parts| == 0 then ""
    else if |parts| == 1 then parts[0]
    else parts[0] + [c] + Join(parts[1..], c)
  }

  /** Occurrences in a concatenation add up. */
  lemma {:induction false} CountAppend(a: string, b: string, c: char)
    ensures Count(a + b, c) == Count(a, c) + Count(b, c)
    decreases |a|
  {
    if |a| > 0 {
      assert (a + b)[1..] == a[1..] + b;
      CountAppend(a[1..], b, c);
    } else {
      assert a + b == b;
    }
  }

  /** Joining `n` pieces free of `c` puts exactly `n - 1` occurrences of `c`
      into the result, one between each pair of neighbours. */
  lemma {:induction false} JoinCount(parts: seq<string>, c: char)
    requires |parts| >= 1
    requires forall k :: 0 <= k < |parts| ==> c !in parts[k]
    ensures Count(Join(parts, c), c) == |parts| - 1
    decreases |parts|
  {
    CountZero(parts[0], c);
    if |parts| >= 2 {
      JoinCount(parts[1..], c);
      CountAppend(parts[0] + [c], Join(parts[1..], c), c);
      CountAppend(parts[0], [c], c);
    }
  }

  /** A join is empty only for no parts or one empty part. */
  lemma JoinEmpty(parts: seq<string>, c: char)
    ensures Join(parts, c) == "" <==> parts == [] || parts == [""]
  {
    if |parts| >= 2 {
      assert |Join(parts, c)| >= 1;
    }
  }

  /** The number of occurrences of `c` in `s`. */
  function Count(s: string, c: char): (n: nat)
    ensures n <= |s|
  {
    if |s| == 0 then 0
    else (if s[0] == c then 1 else 0) + Count(s[1..], c)
  }

  /** A character occurs zero times exactly when it is absent. */
  lemma {:induction false} CountZero(s: string, c: char)
    ensures Count(s, c) == 0 <==> c !in s
    decreases |s|
  {
    if |s| > 0 {
      assert s == [s[0]] + s[1..];
      CountZero(s[1..], c);
    }
  }

  /** `n` separators give `n + 1` pieces. */
  lemma {:induction false} SplitCount(s: string, c: char)
    ensures |Split(s, c)| == Count(s, c) + 1
    decreases |s|
  {
    if |s| > 0 {
      SplitCount(s[1..], c);
    }
  }

  /** No piece contains the separator. */
  lemma {:induction false} SplitPiecesFree(s: string, c: char)
    ensures forall k :: 0 <= k < |Split(s, c)| ==> c !in Split(s, c)[k]
    decreases |s|
  {
    if |s| > 0 {
      SplitPiecesFree(s[1..], c);
    }
  }

  /** Position of the first `c` in `s`, or `|s|` when there is none. */
  function IndexOf(s: string, c: char): (i: nat)
    ensures i <= |s|
    ensures i < |s| ==> s[i] == c
  {
    if |s| == 0 then 0
    else if s[0] == c then 0
    else 1 + IndexOf(s[1..], c)
  }

  /** Position of the last `c` in `s`, or `-1` when there is none. */
  function LastIndexOf(s: string, c: char): (i: int)
    ensures -1 <= i < |s|
    ensures 0 <= i ==> s[i] == c
  {
    if |s| == 0 then -1
    else if s[|s| - 1] == c then |s| - 1
    else LastIndexOf(s[..|s| - 1], c)
  }

  /** Extending the first piece extends the join by the same prefix. */
  lemma JoinExtendFirst(x: string, parts: seq<string>, c: char)
    requires |parts| >= 1
    ensures Join([x + parts[0]] + parts[1..], c) == x + Join(parts, c)
  {
    var ext := [x + parts[0]] + parts[1..];
    if |parts| > 1 {
      assert ext[1..] == parts[1..];
    }
  }

  /** No `c` comes before the position `IndexOf` reports. */
  lemma {:induction false} IndexOfIsFirst(s: string, c: char)
    ensures c !in s[..IndexOf(s, c)]
    decreases |s|
  {
    if |s| > 0 && s[0] != c {
      IndexOfIsFirst(s[1..], c);
      assert s[..IndexOf(s, c)] == [s[0]] + s[1..][..IndexOf(s[1..], c)];
    }
  }

  /** No `c` comes after the position `LastIndexOf` reports. */
  lemma {:induction false} LastIndexOfIsLast(s: string, c: char)
    ensures c !in s[LastIndexOf(s, c) + 1..]
    decreases |s|
  {
    if |s| > 0 && s[|s| - 1] != c {
      var init := s[..|s| - 1];
      LastIndexOfIsLast(init, c);
      assert s[LastIndexOf(s, c) + 1..] == init[LastIndexOf(init, c) + 1..] + [s[|s| - 1]];
    }
  }

  /** Both positions agree on whether `c` occurs, and the first occurrence
      never comes after the last. */
  lemma SeparatorPositions(s: string, c: char)
    ensures IndexOf(s, c) == |s| <==> c !in s
    ensures LastIndexOf(s, c) == -1 <==> c !in s
    ensures c in s ==> IndexOf(s, c) <= LastIndexOf(s, c)
  {
    var j := IndexOf(s, c);
    var i := LastIndexOf(s, c);
    IndexOfIsFirst(s, c);
    LastIndexOfIsLast(s, c);
    if j == |s| {
      assert s[..j] == s;
    }
    if i == -1 {
      assert s[i + 1..] == s;
    }
  }

  /** Joining the pieces of a split gives back the string that was split. */
  lemma {:induction false} JoinSplit(s: string, c: char)
    ensures Join(Split(s, c), c) == s
    decreases |s|
  {
    if |s| > 0 {
      var rest := Split(s[1..], c);
      JoinSplit(s[1..], c);
      if s[0] == c {
        assert ([""] + rest)[1..] == rest;
      } else {
        JoinExtendFirst([s[0]], rest, c);
      }
      assert s == [s[0]] + s[1..];
    }
  }

  /** A string without the separator is a single piece. */
  lemma {:induction false} SplitNoSeparator(s: string, c: char)
    requires c !in s
    ensures Split(s, c) == [s]
  {
    // No separator means one piece, and joining one piece gives that piece.
    CountZero(s, c);
    SplitCount(s, c);
    JoinSplit(s, c);
  }

  /** Splitting around one separator splits each side independently. */
  lemma {:induction false} SplitConcat(a: string, b: string, c: char)
    ensures Split(a + [c] + b, c) == Split(a, c) + Split(b, c)
    decreases |a|
  {
    var s := a + [c] + b;
    if |a| == 0 {
      assert s == [c] + b;
      assert s[1..] == b;
    } else {
      assert s[0] == a[0];
      assert s[1..] == a[1..] + [c] + b;
      SplitConcat(a[1..], b, c);
      if a[0] != c {
        SplitConsCommon(a[0], Split(a[1..], c), Split(b, c));
      }
    }
  }

  /** Prepending to the first piece commutes with appending more pieces. */
  lemma SplitConsCommon(x: char, left: seq<string>, right: seq<string>)
    requires |left| >= 1
    ensures var both := left + right;
      [[x] + both[0]] + both[1..] == ([[x] + left[0]] + left[1..]) + right
  {
    var both := left + right;
    assert both[0] == left[0];
    assert both[1..] == left[1..] + right;
  }

  /** Pieces that do not contain the separator are recovered exactly by
      splitting their join. */
  lemma {:induction false} SplitJoin(parts: seq<string>, c: char)
    requires |parts| >= 1
    requires forall k :: 0 <= k < |parts| ==> c !in parts[k]
    ensures Split(Join(parts, c), c) == parts
  {
    if |parts| == 1 {
      SplitNoSeparator(parts[0], c);
    } else {
      SplitJoin(parts[1..], c);
      SplitConcat(parts[0], Join(parts[1..], c), c);
      SplitNoSeparator(parts[0], c);
      assert parts == [parts[0]] + parts[1..];
    }
  }

  /** Cutting a string at one of its separators. */
  lemma SplitAround(s: string, k: nat, c: char)
    requires k < |s| && s[k] == c
    ensures Split(s, c) == Split(s[..k], c) + Split(s[k + 1..], c)
  {
    assert s == s[..k] + [c] + s[k + 1..];
    SplitConcat(s[..k], s[k + 1..], c);
  }

  /** The first piece is everything before the first separator; the rest
      is the split of everything after it. */
  lemma SplitAtFirst(s: string, c: char)
    requires IndexOf(s, c) < |s|
    ensures Split(s, c) == [s[..IndexOf(s, c)]] + Split(s[IndexOf(s, c) + 1..], c)
  {
    IndexOfIsFirst(s, c);
    SplitAround(s, IndexOf(s, c), c);
    SplitNoSeparator(s[..IndexOf(s, c)], c);
  }

  /** The last piece is everything after the last separator; the others
      are the split of everything before it. */
  lemma SplitAtLast(s: string, c: char)
    requires 0 <= LastIndexOf(s, c)
    ensures Split(s, c) == Split(s[..LastIndexOf(s, c)], c) + [s[LastIndexOf(s, c) + 1..]]
  {
    LastIndexOfIsLast(s, c);
    SplitAround(s, LastIndexOf(s, c), c);
    SplitNoSeparator(s[LastIndexOf(s, c) + 1..], c);
  }

  /** With two distinct separators at the ends, the pieces are the text before
      the first, the pieces of the text between, and the text after the last. */
  lemma SplitBetween(s: string, c: char)
    requires IndexOf(s, c) < LastIndexOf(s, c)
    ensures var j, i := IndexOf(s, c), LastIndexOf(s, c);
      Split(s, c) == [s[..j]] + Split(s[j + 1..i], c) + [s[i + 1..]]
  {
    SplitAtLast(s, c);
    SplitBeforeLast(s, c);
  }

  /** The text before the last separator, cut at the first one. */
  lemma SplitBeforeLast(s: string, c: char)
    requires IndexOf(s, c) < LastIndexOf(s, c)
    ensures var j, i := IndexOf(s, c), LastIndexOf(s, c);
      Split(s[..i], c) == [s[..j]] + Split(s[j + 1..i], c)
  {
    var j, i := IndexOf(s, c), LastIndexOf(s, c);
    var init := s[..i];
    assert init[..j] == s[..j] && init[j + 1..] == s[j + 1..i] && init[j] == c;
    SplitAround(init, j, c);
    IndexOfIsFirst(s, c);
    SplitNoSeparator(s[..j], c);
  }

  /** With a single separator, the pieces are the text on either side. */
  lemma SplitAtOnly(s: string, c: char)
    requires IndexOf(s, c) == LastIndexOf(s, c) < |s|
    ensures Split(s, c) == [s[..IndexOf(s, c)], s[IndexOf(s, c) + 1..]]
  {
    SplitAtFirst(s, c);
    LastIndexOfIsLast(s, c);
    SplitNoSeparator(s[IndexOf(s, c) + 1..], c);
  }

  /** A string splits into exactly two pieces when it holds exactly one
      separator, and the pieces are then the text on either side of it. */
  lemma SplitInTwo(s: string, c: char)
    ensures |Split(s, c)| == 2 <==> IndexOf(s, c) < |s| && c !in s[IndexOf(s, c) + 1..]
    ensures |Split(s, c)| == 2 ==> Split(s, c) == [s[..IndexOf(s, c)], s[IndexOf(s, c) + 1..]]
  {
    var k := IndexOf(s, c);
    if k < |s| {
      SplitAtFirst(s, c);
      if c !in s[k + 1..] {
        SplitNoSeparator(s[k + 1..], c);
      } else {
        CountZero(s[k + 1..], c);
        SplitCount(s[k + 1..], c);
      }
    } else {
      IndexOfIsFirst(s, c);
      assert s[..k] == s;
      SplitNoSeparator(s, c);
    }
  }
}
