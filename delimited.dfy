/** Delimiter-joined text: the pure specification of `Solution.relFormat`'s
    loop, and the structural facts about that text on which any reader of it
    must rely. */
module Delimited {

  /** The formatted elements of `xs` with `d` between neighbours: nothing
      before the first element and nothing after the last. */
  function Join<T>(f: T -> string, d: string, xs: seq<T>): string
    decreases |xs|
  {
    if |xs| == 0 then ""
    else if |xs| == 1 then f(xs[0])
    else f(xs[0]) + d + Join(f, d, xs[1..])
  }

  /** The formatted text of each element, in order. */
  function Formats<T>(f: T -> string, xs: seq<T>): seq<string>
  {
    seq(|xs|, i requires 0 <= i < |xs| => f(xs[i]))
  }

  /** Joining two non-empty runs puts exactly one delimiter at the seam. */
  lemma {:induction false} JoinConcat<T>(f: T -> string, d: string, xs: seq<T>, ys: seq<T>)
    requires |xs| > 0 && |ys| > 0
    ensures Join(f, d, xs + ys) == Join(f, d, xs) + d + Join(f, d, ys)
    decreases |xs|
  {
    if |xs| == 1 {
      assert (xs + ys)[1..] == ys;
    } else {
      assert (xs + ys)[1..] == xs[1..] + ys;
      JoinConcat(f, d, xs[1..], ys);
    }
  }

  /** Appending one element to a non-empty run keeps the earlier text as a
      prefix and adds exactly the delimiter and the new element's text. */
  lemma JoinSnoc<T>(f: T -> string, d: string, xs: seq<T>, x: T)
    requires |xs| > 0
    ensures Join(f, d, xs + [x]) == Join(f, d, xs) + d + f(x)
    ensures Join(f, d, xs) <= Join(f, d, xs + [x])
  {
    JoinConcat(f, d, xs, [x]);
  }

  /** A non-empty join begins with the first element's text and ends with the
      last element's text: no delimiter leads or trails. */
  lemma JoinEnds<T>(f: T -> string, d: string, xs: seq<T>)
    requires |xs| > 0
    ensures f(xs[0]) <= Join(f, d, xs)
    ensures var j, l := Join(f, d, xs), f(xs[|xs| - 1]);
      |l| <= |j| && j[|j| - |l|..] == l
  {
    var n := |xs| - 1;
    if n > 0 {
      assert xs == xs[..n] + [xs[n]];
      JoinSnoc(f, d, xs[..n], xs[n]);
    }
  }

  /** The pieces that make up a join: element texts at even positions, the
      delimiter at odd positions; so n elements give exactly n - 1
      delimiters. */
  function Pieces<T>(f: T -> string, d: string, xs: seq<T>): (p: seq<string>)
    ensures |p| == if |xs| == 0 then 0 else 2 * |xs| - 1
    ensures forall k :: 0 <= k < |p| ==> p[k] == if k % 2 == 0 then f(xs[k / 2]) else d
    decreases |xs|
  {
    if |xs| == 0 then []
    else if |xs| == 1 then [f(xs[0])]
    else [f(xs[0]), d] + Pieces(f, d, xs[1..])
  }

  /** Plain concatenation of a sequence of strings. */
  function Concat(ps: seq<string>): string
    decreases |ps|
  {
    if |ps| == 0 then "" else ps[0] + Concat(ps[1..])
  }

  /** The join is the concatenation of its pieces. */
  lemma {:induction false} JoinIsConcatOfPieces<T>(f: T -> string, d: string, xs: seq<T>)
    ensures Join(f, d, xs) == Concat(Pieces(f, d, xs))
    decreases |xs|
  {
    if |xs| == 1 {
      assert Concat([f(xs[0])]) == f(xs[0]) + Concat([]);
    } else if |xs| > 1 {
      var p := Pieces(f, d, xs[1..]);
      var q := [f(xs[0]), d] + p;
      assert q[1..] == [d] + p;
      assert ([d] + p)[1..] == p;
      JoinIsConcatOfPieces(f, d, xs[1..]);
    }
  }

  /** Cuts `s` at every occurrence of `c`; the cut characters are dropped. */
  function Split(s: string, c: char): (r: seq<string>)
    ensures |r| >= 1
    ensures forall k :: 0 <= k < |r| ==> c !in r[k]
    decreases |s|
  {
    if |s| == 0 then [""]
    else
      var rest := Split(s[1..], c);
      if s[0] == c then [""] + rest else [[s[0]] + rest[0]] + rest[1..]
  }

  /** A string without the separator is one token. */
  lemma {:induction false} SplitWithoutSeparator(a: string, c: char)
    requires c !in a
    ensures Split(a, c) == [a]
    decreases |a|
  {
    if |a| > 0 {
      SplitWithoutSeparator(a[1..], c);
      assert a == [a[0]] + a[1..];
    }
  }

  /** The first separator ends the first token. */
  lemma {:induction false} SplitAtFirstSeparator(a: string, c: char, b: string)
    requires c !in a
    ensures Split(a + [c] + b, c) == [a] + Split(b, c)
    decreases |a|
  {
    var s := a + [c] + b;
    if |a| == 0 {
      assert s[1..] == b;
    } else {
      assert s[1..] == a[1..] + [c] + b;
      SplitAtFirstSeparator(a[1..], c, b);
      assert a == [a[0]] + a[1..];
    }
  }

  /** Text that uses the single character `c` only as the delimiter splits
      back into exactly the element texts, in order, when there is at least
      one element. */
  lemma {:induction false} SplitJoin<T>(f: T -> string, c: char, xs: seq<T>)
    requires |xs| > 0
    requires forall i :: 0 <= i < |xs| ==> c !in f(xs[i])
    ensures Split(Join(f, [c], xs), c) == Formats(f, xs)
    decreases |xs|
  {
    if |xs| == 1 {
      SplitWithoutSeparator(f(xs[0]), c);
    } else {
      SplitJoin(f, c, xs[1..]);
      SplitAtFirstSeparator(f(xs[0]), c, Join(f, [c], xs[1..]));
      assert f(xs[0]) + [c] + Join(f, [c], xs[1..]) == Join(f, [c], xs);
    }
  }

  /** The identity formatter, for joining tokens that are already text. */
  function Verbatim(s: string): string { s }

  /** Joining the tokens of any string with the separator gives the string
      back. */
  lemma {:induction false} JoinSplit(s: string, c: char)
    ensures Join(Verbatim, [c], Split(s, c)) == s
    decreases |s|
  {
    if |s| > 0 {
      var rest := Split(s[1..], c);
      JoinSplit(s[1..], c);
      if s[0] == c {
        assert ([""] + rest)[1..] == rest;
      } else if |rest| > 1 {
        var r := [[s[0]] + rest[0]] + rest[1..];
        assert r[1..] == rest[1..];
        assert s == [s[0]] + s[1..];
      } else {
        assert s == [s[0]] + s[1..];
      }
    }
  }

  /** With a one-character delimiter that no element text contains,
      different lists of element texts give different joins. When one list
      may be empty the element texts must also be non-empty: otherwise an
      empty list and a list of one blank element both give "". */
  lemma JoinInjective<T>(f: T -> string, c: char, xs: seq<T>, ys: seq<T>)
    requires forall i :: 0 <= i < |xs| ==> c !in f(xs[i])
    requires forall i :: 0 <= i < |ys| ==> c !in f(ys[i])
    requires || (|xs| > 0 && |ys| > 0)
             || ((forall i :: 0 <= i < |xs| ==> f(xs[i]) != "")
                 && (forall i :: 0 <= i < |ys| ==> f(ys[i]) != ""))
    requires Join(f, [c], xs) == Join(f, [c], ys)
    ensures Formats(f, xs) == Formats(f, ys)
  {
    if |xs| > 0 && |ys| > 0 {
      SplitJoin(f, c, xs);
      SplitJoin(f, c, ys);
    } else if |xs| > 0 {
      JoinEnds(f, [c], xs);
      assert false;
    } else if |ys| > 0 {
      JoinEnds(f, [c], ys);
      assert false;
    }
  }

  /** The case the previous lemma excludes when a list is empty: a blank text makes a
      one-element join indistinguishable from the empty join. */
  lemma BlankElementCollides<T>(f: T -> string, d: string, x: T)
    requires f(x) == ""
    ensures Join(f, d, [x]) == Join(f, d, [])
  {
  }
}
