// Small datatypes and sequence facts shared by the components of the model.
module Prelude {

  datatype Option<+T> = None | Some(value: T) {
    predicate IsFailure() {
      None?
    }

    function PropagateFailure<U>(): Option<U>
      requires None?
    {
      None
    }

    function Extract(): T
      requires Some?
    {
      value
    }
  }

  function Min(a: int, b: int): int {
    if a < b then a else b
  }

  function Max(a: int, b: int): int {
    if a < b then b else a
  }

  // Reads `m` at `k`, or the default: what an unordered_map's operator[] would hand back.
  function GetOr<K, V>(m: map<K, V>, k: K, default: V): V {
    if k in m then m[k] else default
  }

  // The last `n` elements, or everything when there are fewer.
  function LastN<T>(s: seq<T>, n: nat): seq<T> {
    if |s| <= n then s else s[|s| - n..]
  }

  // std::find_if: the position of the first element that `p` accepts, or the length.
  function FirstIndex<T>(s: seq<T>, p: T -> bool): (r: nat)
    ensures r <= |s|
    ensures r < |s| ==> p(s[r])
    ensures forall i :: 0 <= i < r ==> !p(s[i])
  {
    if s == [] || p(s[0]) then 0
    else
      var r := 1 + FirstIndex(s[1..], p);
      assert forall i :: 1 <= i < r ==> s[1..][i - 1] == s[i];
      r
  }

  lemma Regroup<T>(a: seq<T>, b: seq<T>, c: seq<T>)
    ensures a + b + c == a + (b + c)
  {
  }

  lemma SplitLast<T>(s: seq<T>)
    requires s != []
    ensures s[..|s| - 1] + [s[|s| - 1]] == s
  {
  }

  // ------------------------------------------------------------------
  // Positions picked out of a sequence, in order

  ghost predicate Increasing(pos: seq<nat>, n: nat) {
    && (forall i :: 0 <= i < |pos| ==> pos[i] < n)
    && (forall i, k :: 0 <= i < k < |pos| ==> pos[i] < pos[k])
  }

  // The positions in a sequence that is longer by one at the end.
  lemma OneMoreAtEnd(pos: seq<nat>, n: nat, add: bool) returns (all: seq<nat>)
    requires Increasing(pos, n)
    ensures all == pos + (if add then [n] else []) && Increasing(all, n + 1)
    ensures forall i :: 0 <= i < n ==> (i in all <==> i in pos)
    ensures n in all <==> add
  {
    all := pos + if add then [n] else [];
  }
}
