/** Optional values, for the fields the rule's records declare as optional,
    and collecting the present values of a sequence of options. */
module Wrappers {
  datatype Option<+T> = None | Some(value: T)

  function OptionToSeq<T>(o: Option<T>): seq<T> {
    match o
    case Some(x) => [x]
    case None => []
  }

  /** The present values of `opts`, in order. */
  function Collect<T>(opts: seq<Option<T>>): (xs: seq<T>)
    ensures |xs| <= |opts|
    decreases |opts|
  {
    if opts == [] then []
    else Collect(opts[..|opts| - 1]) + OptionToSeq(opts[|opts| - 1])
  }

  /** The positions of the present values of `opts`, in increasing order. */
  function SomeIndices<T>(opts: seq<Option<T>>): (idx: seq<nat>)
    ensures forall k | 0 <= k < |idx| :: idx[k] < |opts|
    ensures forall j, k | 0 <= j < k < |idx| :: idx[j] < idx[k]
    ensures forall i | 0 <= i < |opts| :: i in idx <==> opts[i].Some?
    decreases |opts|
  {
    if opts == [] then []
    else
      var n := |opts| - 1;
      assert forall i | 0 <= i < n :: opts[..n][i] == opts[i];
      SomeIndices(opts[..n]) + if opts[n].Some? then [n] else []
  }

  /** Extending the options by one appends that option's value, if any. */
  lemma CollectSnoc<T>(opts: seq<Option<T>>, i: nat)
    requires i < |opts|
    ensures Collect(opts[..i + 1]) == Collect(opts[..i]) + OptionToSeq(opts[i])
  {
    assert opts[..i + 1][..i] == opts[..i];
  }

  /** The k-th collected value is the value at the k-th present position. */
  lemma {:induction false} CollectAtIndices<T>(opts: seq<Option<T>>)
    ensures |Collect(opts)| == |SomeIndices(opts)|
    ensures forall k | 0 <= k < |Collect(opts)| :: opts[SomeIndices(opts)[k]] == Some(Collect(opts)[k])
    decreases |opts|
  {
    if opts != [] {
      var n := |opts| - 1;
      var prefix := opts[..n];
      var xs', idx' := Collect(prefix), SomeIndices(prefix);
      CollectAtIndices(prefix);
      var xs, idx := Collect(opts), SomeIndices(opts);
      assert xs == xs' + OptionToSeq(opts[n]);
      assert idx == idx' + if opts[n].Some? then [n] else [];
      forall k | 0 <= k < |xs| ensures opts[idx[k]] == Some(xs[k]) {
        if k < |xs'| {
          assert idx[k] == idx'[k] && xs[k] == xs'[k];
          assert prefix[idx'[k]] == opts[idx'[k]];
        }
      }
    }
  }

  /** A value is collected exactly when it is present at some position. */
  lemma CollectMembership<T>(opts: seq<Option<T>>, x: T)
    ensures x in Collect(opts) <==> exists i | 0 <= i < |opts| :: opts[i] == Some(x)
  {
    CollectAtIndices(opts);
    var xs, idx := Collect(opts), SomeIndices(opts);
    if x in xs {
      var k :| 0 <= k < |xs| && xs[k] == x;
      assert opts[idx[k]] == Some(x);
    }
    if exists i | 0 <= i < |opts| :: opts[i] == Some(x) {
      var i :| 0 <= i < |opts| && opts[i] == Some(x);
      var k :| 0 <= k < |idx| && idx[k] == i;
      assert opts[idx[k]] == Some(xs[k]);
    }
  }
}
