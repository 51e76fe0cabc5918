/** Dense vectors of reals and the cosine-similarity arithmetic on them:
    dot product, sum of squares, magnitude and normalisation. The square
    root (`Math.Sqrt`) is a parameter `raiz` about which only `RaizValida`
    is known. */
module Calculos {

  /** The square root as the model sees it: never negative, zero at zero,
      positive on positive arguments. */
  ghost predicate RaizValida(raiz: real -> real)
  {
    && raiz(0.0) == 0.0
    && (forall x :: raiz(x) >= 0.0)
    && (forall x :: x > 0.0 ==> raiz(x) > 0.0)
  }

  /** A square root with no rounding error on non-negative arguments; only
      the lemmas that need exact arithmetic ask for it. */
  ghost predicate RaizExacta(raiz: real -> real)
  {
    forall x :: x >= 0.0 ==> Por(raiz(x), raiz(x)) == x
  }

  /** Sum of `a[i] * b[i]`, accumulated from the front. */
  function Punto(a: seq<real>, b: seq<real>): real
    requires |a| == |b|
    decreases |a|
  {
    if a == [] then 0.0
    else Punto(a[..|a| - 1], b[..|b| - 1]) + Por(a[|a| - 1], b[|b| - 1])
  }

  function SumaCuadrados(a: seq<real>): real
  {
    Punto(a, a)
  }

  function Norma(a: seq<real>, raiz: real -> real): real
  {
    raiz(SumaCuadrados(a))
  }

  function Ceros(n: nat): (r: seq<real>)
    ensures |r| == n && forall i :: 0 <= i < n ==> r[i] == 0.0
  {
    seq(n, i => 0.0)
  }

  predicate EsCero(a: seq<real>)
  {
    forall i :: 0 <= i < |a| ==> a[i] == 0.0
  }

  /** Element-wise product. */
  function Producto(a: seq<real>, b: seq<real>): (r: seq<real>)
    requires |a| == |b|
    ensures |r| == |a| && forall i :: 0 <= i < |a| ==> r[i] == a[i] * b[i]
  {
    seq(|a|, i requires 0 <= i < |a| => a[i] * b[i])
  }

  function Dividido(a: seq<real>, m: real): (r: seq<real>)
    requires m != 0.0
    ensures |r| == |a| && forall i :: 0 <= i < |a| ==> r[i] == a[i] / m
  {
    seq(|a|, i requires 0 <= i < |a| => a[i] / m)
  }

  /** The unit vector in the direction of `a`, or the zero vector of the
      same length when the magnitude is zero. */
  function Normalizado(a: seq<real>, raiz: real -> real): (r: seq<real>)
    ensures |r| == |a|
  {
    var m := Norma(a, raiz);
    if m == 0.0 then Ceros(|a|) else Dividido(a, m)
  }

  lemma {:induction false} PuntoSimetrico(a: seq<real>, b: seq<real>)
    requires |a| == |b|
    ensures Punto(a, b) == Punto(b, a)
    decreases |a|
  {
    if a != [] {
      PuntoSimetrico(a[..|a| - 1], b[..|b| - 1]);
    }
  }

  function Suma(s: seq<real>): real
    decreases |s|
  {
    if s == [] then 0.0 else Suma(s[..|s| - 1]) + s[|s| - 1]
  }

  /** The dot product is the sum of the element-wise product, so
      `ProductoPunto` and `operator *` agree. */
  lemma {:induction false} PuntoEsSumaDelProducto(a: seq<real>, b: seq<real>)
    requires |a| == |b|
    ensures Punto(a, b) == Suma(Producto(a, b))
    decreases |a|
  {
    if a != [] {
      var n := |a| - 1;
      assert forall i :: 0 <= i < n ==> Producto(a, b)[..n][i] == Producto(a[..n], b[..n])[i];
      assert Producto(a, b)[..n] == Producto(a[..n], b[..n]);
      PuntoEsSumaDelProducto(a[..n], b[..n]);
    }
  }

  lemma {:induction false} PuntoConCero(a: seq<real>, b: seq<real>)
    requires |a| == |b| && EsCero(a)
    ensures Punto(a, b) == 0.0
    decreases |a|
  {
    if a != [] {
      PuntoConCero(a[..|a| - 1], b[..|b| - 1]);
    }
  }

  lemma {:induction false} PuntoNoNegativo(a: seq<real>, b: seq<real>)
    requires |a| == |b|
    requires forall i :: 0 <= i < |a| ==> a[i] >= 0.0 && b[i] >= 0.0
    ensures Punto(a, b) >= 0.0
    decreases |a|
  {
    if a != [] {
      PuntoNoNegativo(a[..|a| - 1], b[..|b| - 1]);
    }
  }

  /** A product kept behind a function, so that facts about the square
      `x * x` reach the solver in the form the proofs state them. */
  function Por(x: real, y: real): real
  {
    x * y
  }

  lemma PorPositivo(x: real, y: real)
    requires x > 0.0 && y > 0.0
    ensures Por(x, y) > 0.0
  {
    assert x * y > 0.0;
  }

  /** A non-zero real has a positive square. */
  lemma CuadradoPositivo(x: real)
    requires x != 0.0
    ensures Por(x, x) > 0.0
  {
    if x > 0.0 {
      PorPositivo(x, x);
    } else {
      PorPositivo(-x, -x);
      assert Por(x, x) == Por(-x, -x);
    }
  }

  /** Adding a square to a non-negative sum keeps it non-negative, and a
      non-zero square makes it positive. */
  lemma SumaMasCuadrado(s: real, x: real)
    requires s >= 0.0
    ensures s + Por(x, x) >= 0.0
    ensures x != 0.0 ==> s + Por(x, x) > 0.0
  {
    if x != 0.0 {
      CuadradoPositivo(x);
    }
  }

  /** The sum of squares is never negative, and it is zero exactly for the
      zero vector. */
  lemma {:induction false} SumaCuadradosCero(a: seq<real>)
    ensures SumaCuadrados(a) >= 0.0
    ensures EsCero(a) ==> SumaCuadrados(a) == 0.0
    ensures !EsCero(a) ==> SumaCuadrados(a) > 0.0
    decreases |a|
  {
    if a != [] {
      var p := a[..|a| - 1];
      SumaCuadradosCero(p);
      var x := a[|a| - 1];
      SumaMasCuadrado(SumaCuadrados(p), x);
      assert SumaCuadrados(a) == SumaCuadrados(p) + Por(x, x);
      if EsCero(a) {
        assert EsCero(p) by {
          forall i | 0 <= i < |p|
            ensures p[i] == 0.0
          {
            assert p[i] == a[i];
          }
        }
      } else if x == 0.0 {
        assert !EsCero(p) by {
          var i :| 0 <= i < |a| && a[i] != 0.0;
          assert p[i] == a[i];
        }
      }
    }
  }

  /** With a valid square root, the magnitude is zero exactly for the zero
      vector. */
  lemma MagnitudCero(a: seq<real>, raiz: real -> real)
    requires RaizValida(raiz)
    ensures Norma(a, raiz) >= 0.0
    ensures Norma(a, raiz) == 0.0 <==> EsCero(a)
  {
    SumaCuadradosCero(a);
  }

  /** `p / m²`, written as a product with the inverse. */
  function EntreCuadrado(p: real, m: real): real
    requires m != 0.0
  {
    p * Por(1.0 / m, 1.0 / m)
  }

  lemma PasoDividido(p: real, q: real, x: real, y: real, m: real)
    requires m != 0.0 && q == EntreCuadrado(p, m)
    ensures q + Por(x / m, y / m) == EntreCuadrado(p + Por(x, y), m)
  {
    var k := 1.0 / m;
    var f := Por(k, k);
    assert x / m == x * k && y / m == y * k;
    assert (x * k) * (y * k) == (x * y) * Por(k, k);
    assert p * f + (x * y) * f == (p + x * y) * f;
  }

  /** Dividing both vectors by `m` scales their dot product by `1/m²`. */
  lemma {:induction false} PuntoDividido(a: seq<real>, b: seq<real>, m: real)
    requires |a| == |b| && m != 0.0
    ensures Punto(Dividido(a, m), Dividido(b, m)) == EntreCuadrado(Punto(a, b), m)
    decreases |a|
  {
    if a != [] {
      var n := |a| - 1;
      var k := 1.0 / m;
      assert forall i :: 0 <= i < n ==> Dividido(a, m)[..n][i] == Dividido(a[..n], m)[i];
      assert forall i :: 0 <= i < n ==> Dividido(b, m)[..n][i] == Dividido(b[..n], m)[i];
      assert Dividido(a, m)[..n] == Dividido(a[..n], m);
      assert Dividido(b, m)[..n] == Dividido(b[..n], m);
      PuntoDividido(a[..n], b[..n], m);
      var da, db := Dividido(a, m), Dividido(b, m);
      var q := Punto(Dividido(a[..n], m), Dividido(b[..n], m));
      PasoDividido(Punto(a[..n], b[..n]), q, a[n], b[n], m);
      assert Punto(da, db) == q + Por(da[n], db[n]);
      assert da[n] == a[n] / m && db[n] == b[n] / m;
      assert Punto(a, b) == Punto(a[..n], b[..n]) + Por(a[n], b[n]);
    }
  }

  /** With an exact square root, normalising a non-zero vector gives a
      vector whose sum of squares is one. */
  lemma NormalizadoUnitario(a: seq<real>, raiz: real -> real)
    requires RaizValida(raiz) && RaizExacta(raiz) && !EsCero(a)
    ensures SumaCuadrados(Normalizado(a, raiz)) == 1.0
  {
    MagnitudCero(a, raiz);
    SumaCuadradosCero(a);
    var m := Norma(a, raiz);
    var q := SumaCuadrados(a);
    assert m != 0.0 && Por(m, m) == q;
    PuntoDividido(a, a, m);
    InversoCuadrado(m);
  }

  lemma InversoCuadrado(m: real)
    requires m != 0.0
    ensures Por(m, m) * Por(1.0 / m, 1.0 / m) == 1.0
  {
    var k := 1.0 / m;
    assert k * m == 1.0;
    assert (m * m) * (k * k) == (m * k) * (m * k);
  }

  /** Normalising the zero vector gives the zero vector of the same
      length. */
  lemma NormalizadoDeCero(a: seq<real>, raiz: real -> real)
    requires RaizValida(raiz) && EsCero(a)
    ensures Normalizado(a, raiz) == Ceros(|a|)
  {
    MagnitudCero(a, raiz);
  }

  /** A dense vector over a private array, fixed at construction. */
  class Vector {
    const elementos: array<real>

    function Longitud(): nat
    {
      elementos.Length
    }

    /** The zero vector of the given length. */
    constructor (tamano: nat)
      ensures fresh(elementos) && elementos[..] == Ceros(tamano)
    {
      elementos := new real[tamano](i => 0.0);
    }

    /** A copy of the given values; later changes to `valores` do not reach
        the vector. */
    constructor DesdeValores(valores: array<real>)
      ensures fresh(elementos) && elementos[..] == valores[..]
    {
      var copia := new real[valores.Length];
      forall i | 0 <= i < valores.Length {
        copia[i] := valores[i];
      }
      elementos := copia;
    }

    /** The indexer's getter. */
    function Obtener(indice: int): (r: real)
      reads elementos
      requires 0 <= indice < elementos.Length
      ensures r == elementos[..][indice]
    {
      elementos[indice]
    }

    /** The indexer's setter: one position changes. */
    method Establecer(indice: int, valor: real)
      requires 0 <= indice < elementos.Length
      modifies elementos
      ensures elementos[..] == old(elementos[..])[indice := valor]
    {
      elementos[indice] := valor;
    }

    /** `operator *`: a new vector with the element-wise product. */
    static method Multiplicar(v1: Vector, v2: Vector) returns (resultado: Vector)
      requires v1.Longitud() == v2.Longitud()
      ensures fresh(resultado) && fresh(resultado.elementos)
      ensures resultado.elementos[..] == Producto(v1.elementos[..], v2.elementos[..])
    {
      resultado := new Vector(v1.Longitud());
      for i := 0 to v1.Longitud()
        invariant fresh(resultado.elementos) && resultado.elementos.Length == v1.Longitud()
        invariant forall k :: 0 <= k < i ==> resultado.elementos[k] == v1.elementos[k] * v2.elementos[k]
      {
        resultado.Establecer(i, v1.Obtener(i) * v2.Obtener(i));
      }
      assert forall k :: 0 <= k < v1.Longitud() ==>
        resultado.elementos[..][k] == Producto(v1.elementos[..], v2.elementos[..])[k];
    }

    /** Sum of the products of matching positions. */
    method ProductoPunto(otro: Vector) returns (suma: real)
      requires Longitud() == otro.Longitud()
      ensures suma == Punto(elementos[..], otro.elementos[..])
    {
      suma := 0.0;
      for i := 0 to Longitud()
        invariant suma == Punto(elementos[..i], otro.elementos[..i])
      {
        assert elementos[..i + 1][..i] == elementos[..i];
        assert otro.elementos[..i + 1][..i] == otro.elementos[..i];
        suma := suma + Obtener(i) * otro.Obtener(i);
      }
      assert elementos[..] == elementos[..Longitud()];
      assert otro.elementos[..] == otro.elementos[..Longitud()];
    }

    /** The square root of the sum of squares. */
    method Magnitud(raiz: real -> real) returns (m: real)
      ensures m == Norma(elementos[..], raiz)
    {
      var sumaDeCuadrados := 0.0;
      for i := 0 to elementos.Length
        invariant sumaDeCuadrados == SumaCuadrados(elementos[..i])
      {
        assert elementos[..i + 1][..i] == elementos[..i];
        sumaDeCuadrados := sumaDeCuadrados + elementos[i] * elementos[i];
      }
      assert elementos[..] == elementos[..elementos.Length];
      m := raiz(sumaDeCuadrados);
    }

    /** A new vector: each element divided by the magnitude, or all zeros
        when the magnitude is zero. */
    method Normalizar(raiz: real -> real) returns (normalizado: Vector)
      ensures fresh(normalizado) && fresh(normalizado.elementos)
      ensures normalizado.elementos[..] == Normalizado(elementos[..], raiz)
    {
      var magnitud := Magnitud(raiz);
      if magnitud == 0.0 {
        normalizado := new Vector(Longitud());
        return;
      }
      normalizado := new Vector(Longitud());
      for i := 0 to Longitud()
        invariant fresh(normalizado.elementos) && normalizado.elementos.Length == elementos.Length
        invariant forall k :: 0 <= k < i ==> normalizado.elementos[k] == elementos[k] / magnitud
      {
        normalizado.Establecer(i, Obtener(i) / magnitud);
      }
    }

    /** A fresh copy of the elements. */
    method ObtenerElementos() returns (copia: array<real>)
      ensures fresh(copia) && copia[..] == elementos[..]
    {
      copia := new real[elementos.Length];
      forall i | 0 <= i < elementos.Length {
        copia[i] := elementos[i];
      }
    }
  }
}
