/**
 Exchanging two entries of a list without repetitions makes an even number of
 inversions odd and an odd number even.
 */
module Parity {

  import opened WorkspaceReplica

  // How many entries are below x.
  function Below(s: seq<nat>, x: nat): nat {
    if s == [] then 0 else (if s[0] < x then 1 else 0) + Below(s[1..], x)
  }

  function Inversions(s: seq<nat>): nat {
    if s == [] then 0 else Below(s[1..], s[0]) + Inversions(s[1..])
  }

  predicate Even(n: nat) {
    n % 2 == 0
  }

  // An even number of exchanges of neighbours puts the list in order.
  predicate IsEven(s: seq<nat>) {
    Even(Inversions(s))
  }

  lemma {:induction false} BelowAfterAdjacent(s: seq<nat>, i: nat, x: nat)
    requires i + 1 < |s|
    ensures Below(Swap(s, i, i + 1), x) == Below(s, x)
  {
    var t := Swap(s, i, i + 1);
    if i == 0 {
      assert t[1..] == [s[0]] + s[2..] && s[1..] == [s[1]] + s[2..];
      assert t[1..][1..] == s[2..] && s[1..][1..] == s[2..];
    } else {
      assert t[1..] == Swap(s[1..], i - 1, i);
      BelowAfterAdjacent(s[1..], i - 1, x);
    }
  }

  lemma {:induction false} AdjacentFlips(s: seq<nat>, i: nat)
    requires Distinct(s) && i + 1 < |s|
    ensures IsEven(Swap(s, i, i + 1)) <==> !IsEven(s)
  {
    var t := Swap(s, i, i + 1);
    if i == 0 {
      FirstTwo(s[0], s[1], s[2..]);
      assert t == [s[1], s[0]] + s[2..] && s == [s[0], s[1]] + s[2..];
    } else {
      assert t[1..] == Swap(s[1..], i - 1, i);
      AdjacentFlips(s[1..], i - 1);
      BelowAfterAdjacent(s[1..], i - 1, s[0]);
    }
  }

  lemma FirstTwo(a: nat, b: nat, rest: seq<nat>)
    requires a != b
    ensures IsEven([b, a] + rest) <==> !IsEven([a, b] + rest)
  {
    InversionsOfTwo(a, b, rest);
    InversionsOfTwo(b, a, rest);
  }

  lemma InversionsOfTwo(a: nat, b: nat, rest: seq<nat>)
    ensures Inversions([a, b] + rest) == (if b < a then 1 else 0) + Below(rest, a) + Below(rest, b) + Inversions(rest)
  {
    assert ([a, b] + rest)[1..] == [b] + rest;
    assert ([b] + rest)[1..] == rest;
  }

  lemma ThreeExchanges(s: seq<nat>, i: nat, j: nat)
    requires i + 1 < j < |s|
    ensures Swap(Swap(Swap(s, j - 1, j), i, j - 1), j - 1, j) == Swap(s, i, j)
  {
  }

  // Any exchange is an odd number of exchanges of neighbours.
  lemma {:induction false} SwapFlips(s: seq<nat>, i: nat, j: nat)
    requires Distinct(s) && i < j < |s|
    ensures IsEven(Swap(s, i, j)) <==> !IsEven(s)
    decreases j - i
  {
    if j == i + 1 {
      AdjacentFlips(s, i);
    } else {
      var t := Swap(s, j - 1, j);
      var u := Swap(t, i, j - 1);
      AdjacentFlips(s, j - 1);
      SwapFlips(t, i, j - 1);
      AdjacentFlips(u, j - 1);
      ThreeExchanges(s, i, j);
    }
  }
}
