/** Small shared vocabulary of the model: optional values (C# `null` /
    `default(T)`) and a few sequence functions used by several source
    files. */
module Comun {

  /** `None` stands for C#'s `null` or `default(T)`. */
  datatype Option<T> = None | Some(value: T)

  /** Number of occurrences of `x` in `s`. */
  function Ocurrencias<T(==)>(s: seq<T>, x: T): (n: nat)
    ensures n <= |s|
    ensures n == 0 <==> x !in s
  {
    if s == [] then 0
    else Ocurrencias(s[..|s| - 1], x) + (if s[|s| - 1] == x then 1 else 0)
  }

  lemma {:induction false} OcurrenciasConcat<T>(s: seq<T>, t: seq<T>, x: T)
    ensures Ocurrencias(s + t, x) == Ocurrencias(s, x) + Ocurrencias(t, x)
  {
    if t == [] {
      assert s + t == s;
    } else {
      assert (s + t)[..|s + t| - 1] == s + t[..|t| - 1];
      OcurrenciasConcat(s, t[..|t| - 1], x);
    }
  }

  /** Position of the first occurrence of `x` in `s`. */
  function PrimerIndice<T(==)>(s: seq<T>, x: T): (i: nat)
    requires x in s
    ensures i < |s| && s[i] == x && x !in s[..i]
  {
    if s[0] == x then 0 else 1 + PrimerIndice(s[1..], x)
  }

  /** The first index is the only position holding `x` with no earlier `x`. */
  lemma PrimerIndiceUnico<T>(s: seq<T>, x: T, k: nat)
    requires k < |s| && s[k] == x && x !in s[..k]
    ensures PrimerIndice(s, x) == k
  {
    var i := PrimerIndice(s, x);
    assert i <= k by {
      assert forall j :: 0 <= j < k ==> s[..k][j] == s[j];
    }
    assert k <= i by {
      assert forall j :: 0 <= j < i ==> s[..i][j] == s[j];
    }
  }

  /** `s` without its element at position `i`. */
  function SinPosicion<T>(s: seq<T>, i: nat): (r: seq<T>)
    requires i < |s|
    ensures |r| == |s| - 1
    ensures forall k :: 0 <= k < i ==> r[k] == s[k]
    ensures forall k :: i <= k < |r| ==> r[k] == s[k + 1]
  {
    s[..i] + s[i + 1..]
  }

  /** No element appears twice. */
  ghost predicate SinRepetidos<T>(s: seq<T>)
  {
    forall i, j :: 0 <= i < j < |s| ==> s[i] != s[j]
  }

  /** Position of the first occurrence of `x` in `s`, or -1. */
  function Posicion<T(==)>(s: seq<T>, x: T): (i: int)
    ensures -1 <= i < |s|
    ensures i == -1 <==> x !in s
    ensures i >= 0 ==> s[i] == x && x !in s[..i]
  {
    if x in s then PrimerIndice(s, x) else -1
  }

  /** The element at position `p`, or `None` (C# `null`) out of range. */
  function ElementoEn<T>(s: seq<T>, p: int): (r: Option<T>)
    ensures r.Some? <==> 0 <= p < |s|
  {
    if 0 <= p < |s| then Some(s[p]) else None
  }

  /** Looking up a position and reading it back are inverse: a present
      element is found at a position holding it, and in a sequence without
      repetitions every position is the one its element is found at. */
  lemma PosicionElementoEn<T>(s: seq<T>, x: T, p: int)
    ensures x in s ==> ElementoEn(s, Posicion(s, x)) == Some(x)
    ensures SinRepetidos(s) && 0 <= p < |s| ==> Posicion(s, s[p]) == p
  {
  }
}

