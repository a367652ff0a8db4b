/** Order-preserving filtering and column-major flattening of sequences: the
    two shapes of table manipulation the cleaning stage performs. */
module Seqs {

  /** `a` can be obtained from `b` by deleting elements, keeping the order of the rest. */
  ghost predicate IsSubsequence<T>(a: seq<T>, b: seq<T>)
    decreases |b|
  {
    if a == [] then true
    else if b == [] then false
    else (a[0] == b[0] && IsSubsequence(a[1..], b[1..])) || IsSubsequence(a, b[1..])
  }

  /** The elements of `s` that satisfy `p`, in their original order (a boolean
      mask applied to a table, `df[mask]`). */
  function Filter<T(!new)>(s: seq<T>, p: T -> bool): (r: seq<T>)
    ensures |r| <= |s|
    ensures forall x :: x in r <==> x in s && p(x)
  {
    if s == [] then []
    else
      var rest := Filter(s[1..], p);
      assert s == [s[0]] + s[1..];
      if p(s[0]) then [s[0]] + rest else rest
  }

  /** Filtering keeps every passing element as often as it occurs, drops every
      other one, and keeps the order. */
  lemma {:induction false} FilterCounts<T(!new)>(s: seq<T>, p: T -> bool)
    ensures forall x :: multiset(Filter(s, p))[x] == if p(x) then multiset(s)[x] else 0
    ensures IsSubsequence(Filter(s, p), s)
  {
    if s != [] {
      FilterCounts(s[1..], p);
      var rest := Filter(s[1..], p);
      assert s == [s[0]] + s[1..];
      if p(s[0]) {
        assert ([s[0]] + rest)[1..] == rest;
      }
    }
  }

  /** Filtering keeps a sequence whose elements all pass unchanged. */
  lemma {:induction false} FilterKeepsAll<T(!new)>(s: seq<T>, p: T -> bool)
    requires forall x :: x in s ==> p(x)
    ensures Filter(s, p) == s
  {
    if s != [] {
      assert s[0] in s;
      forall x | x in s[1..] ensures p(x) {
        assert x in s;
      }
      FilterKeepsAll(s[1..], p);
    }
  }

  /** Applying the same filter twice is the same as applying it once. */
  lemma {:induction false} FilterIdempotent<T(!new)>(s: seq<T>, p: T -> bool)
    ensures Filter(Filter(s, p), p) == Filter(s, p)
  {
    FilterKeepsAll(Filter(s, p), p);
  }

  /** Two filters may be applied in either order. */
  lemma {:induction false} FilterCommute<T(!new)>(s: seq<T>, p: T -> bool, q: T -> bool)
    ensures Filter(Filter(s, p), q) == Filter(Filter(s, q), p)
  {
    if s != [] {
      FilterCommute(s[1..], p, q);
    }
  }

  /** The first element of a non-empty sequence is kept in front exactly when it passes. */
  lemma FilterCons<T(!new)>(s: seq<T>, p: T -> bool)
    requires s != []
    ensures Filter(s, p) == (if p(s[0]) then [s[0]] else []) + Filter(s[1..], p)
  {
  }

  /** Filtering distributes over concatenation: a mask applies row by row. */
  lemma {:induction false} FilterConcat<T(!new)>(a: seq<T>, b: seq<T>, p: T -> bool)
    ensures Filter(a + b, p) == Filter(a, p) + Filter(b, p)
  {
    if a == [] {
      assert a + b == b;
    } else {
      var s := a + b;
      assert s[0] == a[0] && s[1..] == a[1..] + b;
      FilterConcat(a[1..], b, p);
      FilterCons(s, p);
      FilterCons(a, p);
      AppendAssoc(if p(a[0]) then [a[0]] else [], Filter(a[1..], p), Filter(b, p));
    }
  }

  /** Filtering a single element keeps it exactly when it passes. */
  lemma FilterSingle<T(!new)>(x: T, p: T -> bool)
    ensures Filter([x], p) == if p(x) then [x] else []
  {
    FilterCons([x], p);
    assert [x][1..] == [];
  }

  /** Concatenation is associative. */
  lemma AppendAssoc<T>(a: seq<T>, b: seq<T>, c: seq<T>)
    ensures a + (b + c) == (a + b) + c
  {
  }

  /** Concatenation of a sequence of blocks, first block first. */
  function Flatten<T>(blocks: seq<seq<T>>): (r: seq<T>)
  {
    if blocks == [] then [] else blocks[0] + Flatten(blocks[1..])
  }

  /** Every block has length `n`. */
  ghost predicate Uniform<T>(blocks: seq<seq<T>>, n: nat) {
    forall j :: 0 <= j < |blocks| ==> |blocks[j]| == n
  }

  /** Where block `j` starts when every block has `n` elements, that is `j * n`;
      written as repeated addition so that positions stay linear arithmetic. */
  function BlockStart(n: nat, j: nat): nat {
    if j == 0 then 0 else BlockStart(n, j - 1) + n
  }

  lemma {:induction false} BlockStartIsProduct(n: nat, j: nat)
    ensures BlockStart(n, j) == j * n
  {
    if j > 0 {
      BlockStartIsProduct(n, j - 1);
      assert j * n == (j - 1) * n + n;
    }
  }

  /** Flattening `m` blocks of length `n` gives `m * n` elements. */
  lemma {:induction false} FlattenLength<T>(blocks: seq<seq<T>>, n: nat)
    requires Uniform(blocks, n)
    ensures |Flatten(blocks)| == BlockStart(n, |blocks|) == |blocks| * n
  {
    if blocks != [] {
      FlattenLength(blocks[1..], n);
    }
    BlockStartIsProduct(n, |blocks|);
  }

  /** Element `i` of block `j` sits at position `j * n + i` of the flattened sequence. */
  lemma {:induction false} FlattenIndex<T>(blocks: seq<seq<T>>, n: nat, j: nat, i: nat)
    requires Uniform(blocks, n) && j < |blocks| && i < n
    ensures BlockStart(n, j) + i < |Flatten(blocks)| && Flatten(blocks)[BlockStart(n, j) + i] == blocks[j][i]
  {
    FlattenLength(blocks, n);
    if j > 0 {
      var rest := blocks[1..];
      FlattenIndex(rest, n, j - 1, i);
      assert rest[j - 1] == blocks[j];
    }
  }

  /** Every position of the flattened sequence is `j * n + i` for a block `j`
      and an offset `i` inside it. */
  lemma {:induction false} FlattenCover<T>(blocks: seq<seq<T>>, n: nat, k: nat)
    requires Uniform(blocks, n) && k < |Flatten(blocks)|
    ensures exists j, i :: 0 <= j < |blocks| && 0 <= i < n && k == BlockStart(n, j) + i && Flatten(blocks)[k] == blocks[j][i]
  {
    var rest := blocks[1..];
    if k < n {
      assert k == BlockStart(n, 0) + k;
      assert Flatten(blocks)[k] == blocks[0][k];
    } else {
      FlattenCover(rest, n, k - n);
      var j, i :| 0 <= j < |rest| && 0 <= i < n && k - n == BlockStart(n, j) + i && Flatten(rest)[k - n] == rest[j][i];
      assert k == BlockStart(n, j + 1) + i;
      assert Flatten(blocks)[k] == blocks[j + 1][i];
    }
  }

  /** `f` applied to every element, in order. */
  function Map<A, B>(s: seq<A>, f: A -> B): (r: seq<B>)
    ensures |r| == |s|
  {
    seq(|s|, k requires 0 <= k < |s| => f(s[k]))
  }

  /** Mapping every block and then flattening is mapping the flattened blocks. */
  lemma {:induction false} FlattenMap<A, B>(blocks: seq<seq<A>>, mapped: seq<seq<B>>, f: A -> B)
    requires |mapped| == |blocks|
    requires forall j :: 0 <= j < |blocks| ==> mapped[j] == Map(blocks[j], f)
    ensures Flatten(mapped) == Map(Flatten(blocks), f)
  {
    if blocks != [] {
      FlattenMap(blocks[1..], mapped[1..], f);
      var head := blocks[0];
      var tail := Flatten(blocks[1..]);
      assert Map(head + tail, f) == Map(head, f) + Map(tail, f);
    }
  }
}
