/** A term of the canonical index: its postings (at most one per document,
    kept in a circular list), its document frequency and its idf. The idf
    is computed with a hand-written logarithm: two clamping constants and a
    ten-term Taylor polynomial of ln(1 + y), exact over `real`. */
module TermInfos {
  import opened Comun
  import opened Listas
  import opened Postings

  // ---------------------------------------------------------------------
  // The hand-written logarithm

  /** The constant the source uses for ln(10). */
  const LN10: real := 2.302585092994046

  /** Number of Taylor terms of `CalcularLogaritmoNatural`. */
  const TERMINOS_SERIE: nat := 10

  /** `y` to the power `i`. */
  function Potencia(y: real, i: nat): real
  {
    if i == 0 then 1.0 else Potencia(y, i - 1) * y
  }

  /** The first `n` terms of ln(1 + y) = y - y^2/2 + y^3/3 - ... */
  function Serie(y: real, n: nat): real
  {
    if n == 0 then 0.0
    else if n % 2 == 1 then Serie(y, n - 1) + Potencia(y, n) / (n as real)
    else Serie(y, n - 1) - Potencia(y, n) / (n as real)
  }

  /** The natural logarithm as the source approximates it: 0 off the domain
      and at 1, a constant above 3 (strictly) and below 0.3, the truncated
      series in between. */
  function LnAprox(x: real): real
  {
    if x <= 0.0 then 0.0
    else if x == 1.0 then 0.0
    else if x > 3.0 then 1.0986
    else if x < 0.3 then -1.2040
    else Serie(x - 1.0, TERMINOS_SERIE)
  }

  /** log10(x) as ln(x) / ln(10), 0 off the domain and at 1. */
  function Log10Aprox(x: real): real
  {
    if x <= 0.0 then 0.0
    else if x == 1.0 then 0.0
    else LnAprox(x) / LN10
  }

  /** The idf `CalcularIdf` stores for document frequency `df` in a corpus
      of `total` documents. */
  function IdfDe(df: int, total: int): real
  {
    if df == 0 || total == 0 then 0.0
    else Log10Aprox(total as real / df as real)
  }

  /** The accumulator loop over `resultado` and `potencia`. */
  method CalcularLogaritmoNatural(x: real) returns (r: real)
    ensures r == LnAprox(x)
  {
    if x <= 0.0 {
      return 0.0;
    }
    if x == 1.0 {
      return 0.0;
    }
    if x > 3.0 {
      return 1.0986;
    }
    if x < 0.3 {
      return -1.2040;
    }
    var y := x - 1.0;
    var resultado := 0.0;
    var potencia := y;
    var i := 1;
    while i <= TERMINOS_SERIE
      invariant 1 <= i <= TERMINOS_SERIE + 1
      invariant resultado == Serie(y, i - 1)
      invariant potencia == Potencia(y, i)
    {
      if i % 2 == 1 {
        resultado := resultado + potencia / (i as real);
      } else {
        resultado := resultado - potencia / (i as real);
      }
      potencia := potencia * y;
      i := i + 1;
    }
    return resultado;
  }

  method CalcularLogaritmoBase10(x: real) returns (r: real)
    ensures r == Log10Aprox(x)
  {
    if x <= 0.0 {
      return 0.0;
    }
    if x == 1.0 {
      return 0.0;
    }
    var logaritmoNatural := CalcularLogaritmoNatural(x);
    return logaritmoNatural / LN10;
  }

  lemma {:induction false} PotenciaSigno(y: real, i: nat)
    requires y < 0.0
    ensures i % 2 == 0 ==> Potencia(y, i) > 0.0
    ensures i % 2 == 1 ==> Potencia(y, i) < 0.0
  {
    if i > 0 {
      PotenciaSigno(y, i - 1);
    }
  }

  lemma {:induction false} PotenciaPositiva(y: real, i: nat)
    requires 0.0 < y <= 1.0
    ensures 0.0 < Potencia(y, i) <= 1.0
  {
    if i > 0 {
      PotenciaPositiva(y, i - 1);
      ProductoAcotado(Potencia(y, i - 1), y);
    }
  }

  lemma ProductoAcotado(a: real, y: real)
    requires 0.0 < a && 0.0 < y <= 1.0
    ensures 0.0 < a * y <= a
  {
    assert a * (1.0 - y) >= 0.0;
  }

  /** For 0 < y <= 1, a term of odd rank outweighs the next one. */
  lemma ParPositivo(a: real, y: real, m: nat)
    requires 0.0 < a && 0.0 < y <= 1.0 && m >= 1
    ensures a / ((2 * m - 1) as real) - a * y / ((2 * m) as real) > 0.0
  {
    var impar, par := (2 * m - 1) as real, (2 * m) as real;
    ProductoAcotado(a, y);
    assert a * y / par <= a / par;
    DivisionDecreciente(a, impar, par);
  }

  /** Dividing a positive number by more gives less. */
  lemma DivisionDecreciente(a: real, p: real, q: real)
    requires a > 0.0 && 0.0 < p < q
    ensures a / q < a / p
  {
    var u, v := a / q, a / p;
    assert u > 0.0;
    assert u * q == a && v * p == a;
    assert u * (q - p) > 0.0;
    assert u * p < v * p;
  }

  /** Below 1 every term of the series is negative. */
  lemma {:induction false} SerieNegativa(y: real, n: nat)
    requires y < 0.0 && n >= 1
    ensures Serie(y, n) < 0.0
  {
    PotenciaSigno(y, n);
    if n > 1 {
      SerieNegativa(y, n - 1);
    }
  }

  /** Above 1 (up to 2) the terms alternate with decreasing size, so every
      pair of them, and hence every even partial sum, is positive. */
  lemma {:induction false} SeriePositiva(y: real, m: nat)
    requires 0.0 < y <= 1.0 && m >= 1
    ensures Serie(y, 2 * m) > 0.0
  {
    var a := Potencia(y, 2 * m - 1);
    PotenciaPositiva(y, 2 * m - 1);
    ParPositivo(a, y, m);
    var par := a / ((2 * m - 1) as real) - a * y / ((2 * m) as real);
    SerieDosPasos(y, m);
    var previa := Serie(y, 2 * (m - 1));
    if m > 1 {
      SeriePositiva(y, m - 1);
    } else {
      assert previa == 0.0;
    }
    assert Serie(y, 2 * m) == previa + par;
  }

  /** Two steps of the series: one term of odd rank, then one of even rank. */
  lemma SerieDosPasos(y: real, m: nat)
    requires m >= 1
    ensures Serie(y, 2 * m) ==
      Serie(y, 2 * (m - 1)) + Potencia(y, 2 * m - 1) / ((2 * m - 1) as real) - Potencia(y, 2 * m - 1) * y / ((2 * m) as real)
  {
    assert (2 * m) % 2 == 0 && (2 * m - 1) % 2 == 1;
    assert Potencia(y, 2 * m) == Potencia(y, 2 * m - 1) * y;
  }

  /** The approximation has the sign of the true logarithm where the series
      is used on the near side of 1: positive on (1, 2], negative on
      [0.3, 1). */
  lemma Log10AproxSigno(x: real)
    ensures 1.0 < x <= 2.0 ==> Log10Aprox(x) > 0.0
    ensures 0.3 <= x < 1.0 ==> Log10Aprox(x) < 0.0
  {
    if 1.0 < x <= 2.0 {
      SeriePositiva(x - 1.0, 5);
      assert LnAprox(x) > 0.0;
    }
    if 0.3 <= x < 1.0 {
      SerieNegativa(x - 1.0, TERMINOS_SERIE);
      assert LnAprox(x) < 0.0;
    }
  }

  /** A term found in every document weighs 0. */
  lemma IdfTermUniversal(df: int)
    requires 0 < df
    ensures IdfDe(df, df) == 0.0
  {
    assert df as real / df as real == 1.0;
  }

  /** A term found in at least half, but not all, of the documents weighs
      more than 0. */
  lemma IdfPositivo(df: int, total: int)
    requires 0 < df < total <= 2 * df
    ensures IdfDe(df, total) > 0.0
  {
    CocienteEntreUnoYDos(total as real, df as real);
    Log10AproxSigno(total as real / df as real);
  }

  /** idf(N = 3, df = 2) agrees with log10(3/2) = 0.176 to two decimals. */
  lemma IdfTresMedios()
    ensures 0.17 < IdfDe(2, 3) < 0.18
  {
    assert 3 as real / 2 as real == 1.5;
    assert LnAprox(1.5) == Serie(0.5, 10);
  }

  lemma CocienteEntreUnoYDos(a: real, b: real)
    requires 0.0 < b < a <= 2.0 * b
    ensures 1.0 < a / b <= 2.0
  {
    var q := a / b;
    assert q * b == a;
    assert (q - 1.0) * b == a - b;
    assert (2.0 - q) * b == 2.0 * b - a;
  }

  /** Because the `x > 3.0` test is strict, a term in one document out of
      three falls in the series branch at y = 2, where the series diverges:
      the idf comes out negative, not log10(3) = 0.477. */
  lemma IdfTercioNegativo()
    ensures IdfDe(1, 3) < 0.0
  {
    assert LnAprox(3.0) == Serie(2.0, 10);
  }

  // ---------------------------------------------------------------------
  // Postings of a term

  /** No two postings share a document. */
  predicate IdsDistintos(vs: seq<PostingValor>)
  {
    forall i, j :: 0 <= i < j < |vs| ==> vs[i].idDocumento != vs[j].idDocumento
  }

  /** Some posting is for document `id`. */
  predicate TieneId(vs: seq<PostingValor>, id: string)
  {
    exists i :: 0 <= i < |vs| && vs[i].idDocumento == id
  }

  /** Position of the first posting for document `id`. */
  function IndiceDe(vs: seq<PostingValor>, id: string): (i: nat)
    requires TieneId(vs, id)
    ensures i < |vs| && vs[i].idDocumento == id
    ensures forall j :: 0 <= j < i ==> vs[j].idDocumento != id
  {
    if vs[0].idDocumento == id then 0
    else
      assert TieneId(vs[1..], id) by {
        var k :| 0 <= k < |vs| && vs[k].idDocumento == id;
        assert vs[1..][k - 1].idDocumento == id;
      }
      1 + IndiceDe(vs[1..], id)
  }

  /** The values of a sequence of posting objects, in order. */
  function Valores(ps: seq<Posting>): (vs: seq<PostingValor>)
    reads ps
    ensures |vs| == |ps| && forall i :: 0 <= i < |ps| ==> vs[i] == ps[i].Valor()
  {
    seq(|ps|, i reads ps requires 0 <= i < |ps| => ps[i].Valor())
  }

  /** Sum of the frequencies of a sequence of postings. */
  function FrecuenciaTotal(vs: seq<PostingValor>): int
  {
    if vs == [] then 0 else FrecuenciaTotal(vs[..|vs| - 1]) + vs[|vs| - 1].frecuencia
  }

  /** `AgregarPosting` on values: the posting of the same document, if any,
      gains one occurrence (whatever the new posting's own frequency) and
      nothing else changes; otherwise the new posting is appended. */
  function AgregarPostingVista(vs: seq<PostingValor>, p: PostingValor): (r: seq<PostingValor>)
    ensures TieneId(vs, p.idDocumento) ==>
      var k := IndiceDe(vs, p.idDocumento);
      && |r| == |vs|
      && r[k] == vs[k].(frecuencia := vs[k].frecuencia + 1)
      && forall i :: 0 <= i < |vs| && i != k ==> r[i] == vs[i]
    ensures !TieneId(vs, p.idDocumento) ==> |r| == |vs| + 1 && r[..|vs|] == vs && r[|vs|] == p
  {
    if TieneId(vs, p.idDocumento) then
      var k := IndiceDe(vs, p.idDocumento);
      vs[k := vs[k].(frecuencia := vs[k].frecuencia + 1)]
    else
      vs + [p]
  }

  /** Adding a posting keeps the documents distinct, and the documents of the
      result are those before plus the new posting's. */
  lemma AgregarPostingIds(vs: seq<PostingValor>, p: PostingValor)
    requires IdsDistintos(vs)
    ensures IdsDistintos(AgregarPostingVista(vs, p))
    ensures forall id :: TieneId(AgregarPostingVista(vs, p), id) <==> TieneId(vs, id) || id == p.idDocumento
  {
    var r := AgregarPostingVista(vs, p);
    assert forall i :: 0 <= i < |vs| ==> r[i].idDocumento == vs[i].idDocumento;
    if !TieneId(vs, p.idDocumento) {
      assert r[|vs|].idDocumento == p.idDocumento;
    }
    forall id | TieneId(r, id)
      ensures TieneId(vs, id) || id == p.idDocumento
    {
      var i :| 0 <= i < |r| && r[i].idDocumento == id;
      if i < |vs| {
        assert vs[i].idDocumento == id;
      }
    }
  }

  lemma AgregarExistente(vs: seq<PostingValor>, p: PostingValor, k: nat)
    requires IdsDistintos(vs) && k < |vs| && vs[k].idDocumento == p.idDocumento
    ensures TieneId(vs, p.idDocumento)
    ensures AgregarPostingVista(vs, p) == vs[k := vs[k].(frecuencia := vs[k].frecuencia + 1)]
  {
    assert IndiceDe(vs, p.idDocumento) == k;
  }

  lemma AgregarNuevo(vs: seq<PostingValor>, p: PostingValor)
    requires !TieneId(vs, p.idDocumento)
    ensures AgregarPostingVista(vs, p) == vs + [p]
  {
  }

  lemma {:induction false} FrecuenciaTotalConcat(vs: seq<PostingValor>, p: PostingValor)
    ensures FrecuenciaTotal(vs + [p]) == FrecuenciaTotal(vs) + p.frecuencia
  {
    assert (vs + [p])[..|vs + [p]| - 1] == vs;
  }

  lemma {:induction false} FrecuenciaTotalIncrementa(vs: seq<PostingValor>, i: nat)
    requires i < |vs|
    ensures FrecuenciaTotal(vs[i := vs[i].(frecuencia := vs[i].frecuencia + 1)]) == FrecuenciaTotal(vs) + 1
  {
    var ws := vs[i := vs[i].(frecuencia := vs[i].frecuencia + 1)];
    if i == |vs| - 1 {
      assert ws[..|ws| - 1] == vs[..|vs| - 1];
    } else {
      assert ws[..|ws| - 1] == vs[..|vs| - 1][i := vs[i].(frecuencia := vs[i].frecuencia + 1)];
      FrecuenciaTotalIncrementa(vs[..|vs| - 1], i);
    }
  }

  /** Adding a posting adds one occurrence when the document already has a
      posting under the term, and the new posting's frequency otherwise. */
  lemma AgregarPostingFrecuencia(vs: seq<PostingValor>, p: PostingValor)
    ensures FrecuenciaTotal(AgregarPostingVista(vs, p)) ==
      FrecuenciaTotal(vs) + (if TieneId(vs, p.idDocumento) then 1 else p.frecuencia)
  {
    if TieneId(vs, p.idDocumento) {
      FrecuenciaTotalIncrementa(vs, IndiceDe(vs, p.idDocumento));
    } else {
      assert AgregarPostingVista(vs, p) == vs + [p];
      FrecuenciaTotalConcat(vs, p);
    }
  }

  /** `ActualizarTfIdfPostings` on values. */
  function ActualizarVista(vs: seq<PostingValor>, idf: real): (r: seq<PostingValor>)
    ensures |r| == |vs|
    ensures forall i :: 0 <= i < |vs| ==> r[i] == ConTfIdf(vs[i], idf)
  {
    seq(|vs|, i requires 0 <= i < |vs| => ConTfIdf(vs[i], idf))
  }

  /** Recomputing the weights is idempotent, so it may run any number of
      times. */
  lemma ActualizarIdempotente(vs: seq<PostingValor>, idf: real)
    ensures ActualizarVista(ActualizarVista(vs, idf), idf) == ActualizarVista(vs, idf)
  {
    var r := ActualizarVista(vs, idf);
    forall i | 0 <= i < |r|
      ensures ActualizarVista(r, idf)[i] == r[i]
    {
      assert r[i] == ConTfIdf(vs[i], idf);
    }
  }

  /** Recomputing the weights keeps the documents of the postings. */
  lemma ActualizarConservaIds(vs: seq<PostingValor>, idf: real)
    ensures forall id :: TieneId(ActualizarVista(vs, idf), id) <==> TieneId(vs, id)
    ensures IdsDistintos(vs) ==> IdsDistintos(ActualizarVista(vs, idf))
  {
    var r := ActualizarVista(vs, idf);
    assert forall i :: 0 <= i < |vs| ==> r[i].idDocumento == vs[i].idDocumento;
    forall id | TieneId(r, id)
      ensures TieneId(vs, id)
    {
      var i :| 0 <= i < |r| && r[i].idDocumento == id;
      assert vs[i].idDocumento == id;
    }
  }

  /** Recomputing the weights leaves every frequency, hence their sum. */
  lemma {:induction false} ActualizarFrecuenciaTotal(vs: seq<PostingValor>, idf: real)
    ensures FrecuenciaTotal(ActualizarVista(vs, idf)) == FrecuenciaTotal(vs)
  {
    if vs != [] {
      ActualizarFrecuenciaTotal(vs[..|vs| - 1], idf);
      var r := ActualizarVista(vs, idf);
      assert r[..|r| - 1] == ActualizarVista(vs[..|vs| - 1], idf);
    }
  }

  /** The observable state of a term. */
  datatype TermVista = TermVista(termino: string, postings: seq<PostingValor>, frecuenciaDocumental: int, idf: real)

  /** `AgregarPosting` on the term's state: `frecuenciaDocumental` grows
      exactly when the document is new to the term. */
  function AgregarPostingTerm(t: TermVista, p: PostingValor): (r: TermVista)
    ensures r.postings == AgregarPostingVista(t.postings, p)
    ensures r.termino == t.termino && r.idf == t.idf
    ensures r.frecuenciaDocumental == t.frecuenciaDocumental + |r.postings| - |t.postings|
  {
    t.(postings := AgregarPostingVista(t.postings, p),
       frecuenciaDocumental := if TieneId(t.postings, p.idDocumento) then t.frecuenciaDocumental else t.frecuenciaDocumental + 1)
  }

  class TermInfo {
    var termino: string
    var postings: ListaDobleCircular<Posting>
    var frecuenciaDocumental: int
    var idf: real

    ghost var Repr: set<object>

    /** The term owns its list and its postings (`Repr` holds them); the
        postings are for distinct documents; the document frequency is the
        number of postings. */
    ghost predicate Valid()
      reads this, Repr
    {
      && this in Repr
      && postings in Repr
      && postings.Valid()
      && (forall p :: p in postings.Contents ==> p in Repr)
      && (forall i, j :: 0 <= i < j < |postings.Contents| ==> postings.Contents[i].idDocumento != postings.Contents[j].idDocumento)
      && frecuenciaDocumental == |postings.Contents|
    }

    ghost function Vista(): TermVista
      reads this, Repr
      requires Valid()
    {
      TermVista(termino, Valores(postings.Contents), frecuenciaDocumental, idf)
    }

    constructor Vacio()
      ensures Valid() && fresh(Repr)
      ensures Vista() == TermVista("", [], 0, 0.0)
    {
      termino := "";
      postings := new ListaDobleCircular();
      frecuenciaDocumental := 0;
      idf := 0.0;
      new;
      Repr := {this, postings};
    }

    constructor (termino: string)
      ensures Valid() && fresh(Repr)
      ensures Vista() == TermVista(termino, [], 0, 0.0)
    {
      this.termino := termino;
      postings := new ListaDobleCircular();
      frecuenciaDocumental := 0;
      idf := 0.0;
      new;
      Repr := {this, postings};
    }

    /** Distinct documents make distinct objects. */
    lemma PostingsDistintos()
      requires Valid()
      ensures forall i, j :: 0 <= i < j < |postings.Contents| ==> postings.Contents[i] != postings.Contents[j]
    {
      forall i, j | 0 <= i < j < |postings.Contents|
        ensures postings.Contents[i] != postings.Contents[j]
      {
        assert Valores(postings.Contents)[i].idDocumento != Valores(postings.Contents)[j].idDocumento;
      }
    }

    /** Linear search with the list's cursor, comparing against a temporary
        posting of that id. */
    method BuscarPostingPorDocumento(idDocumento: string) returns (r: Posting?)
      requires Valid()
      ensures r == null <==> !TieneId(Valores(postings.Contents), idDocumento)
      ensures r != null ==> r in postings.Contents && r.idDocumento == idDocumento
    {
      if postings.EstaVacia() {
        return null;
      }
      var temporal := new Posting(idDocumento, 0);
      var iterador := postings.ObtenerIterator();
      while iterador.TieneSiguiente()
        invariant fresh(iterador) && iterador.Valid() && iterador.lista == postings
        invariant iterador.Elementos == postings.Contents
        invariant temporal.idDocumento == idDocumento
        invariant forall j :: 0 <= j < iterador.Recorridos ==> postings.Contents[j].idDocumento != idDocumento
        decreases |iterador.Elementos| - iterador.Recorridos
      {
        ghost var k := iterador.Recorridos;
        var actual := iterador.Siguiente();
        assert actual.value == postings.Contents[k];
        if actual.value.EsIgual(temporal) {
          assert Valores(postings.Contents)[k].idDocumento == idDocumento;
          return actual.value;
        }
      }
      assert forall j :: 0 <= j < |postings.Contents| ==> Valores(postings.Contents)[j].idDocumento != idDocumento;
      return null;
    }

    /** Find-or-create of the posting for the new posting's document. */
    method AgregarPosting(nuevoPosting: Posting)
      requires Valid()
      modifies Repr
      ensures Valid()
      ensures Vista() == AgregarPostingTerm(old(Vista()), old(nuevoPosting.Valor()))
      ensures old(Repr) <= Repr && Repr <= old(Repr) + {nuevoPosting}
    {
      var existente := BuscarPostingPorDocumento(nuevoPosting.idDocumento);
      if existente != null {
        IncrementarEn(existente, nuevoPosting.Valor());
      } else {
        InsertarNuevo(nuevoPosting);
      }
    }

    /** The found branch of `AgregarPosting`. */
    method IncrementarEn(existente: Posting, ghost p: PostingValor)
      requires Valid() && existente in postings.Contents && existente.idDocumento == p.idDocumento
      modifies existente
      ensures Valid() && Repr == old(Repr)
      ensures Vista() == AgregarPostingTerm(old(Vista()), p)
    {
      ghost var v0 := Vista();
      ghost var antes := v0.postings;
      ghost var k :| 0 <= k < |postings.Contents| && postings.Contents[k] == existente;
      PostingsDistintos();
      AgregarExistente(antes, p, k);
      existente.IncrementarFrecuencia();
      assert forall j :: 0 <= j < |postings.Contents| ==> postings.Contents[j].idDocumento == antes[j].idDocumento;
      assert Valores(postings.Contents) == antes[k := antes[k].(frecuencia := antes[k].frecuencia + 1)];
      assert Vista() == v0.(postings := antes[k := antes[k].(frecuencia := antes[k].frecuencia + 1)]);
    }

    /** The not-found branch of `AgregarPosting`. */
    method InsertarNuevo(nuevoPosting: Posting)
      requires Valid() && !TieneId(Valores(postings.Contents), nuevoPosting.idDocumento)
      modifies this, postings
      ensures Valid() && Repr == old(Repr) + {nuevoPosting}
      ensures Vista() == AgregarPostingTerm(old(Vista()), nuevoPosting.Valor())
    {
      ghost var v0 := Vista();
      ghost var antes := v0.postings;
      ghost var p := nuevoPosting.Valor();
      AgregarPostingIds(antes, p);
      AgregarNuevo(antes, p);
      postings.Insertar(nuevoPosting);
      frecuenciaDocumental := frecuenciaDocumental + 1;
      Repr := Repr + {nuevoPosting};
      assert Valores(postings.Contents) == antes + [p];
      assert Vista() == v0.(postings := antes + [p], frecuenciaDocumental := v0.frecuenciaDocumental + 1);
    }

    /** idf(t) = log10(N / df(t)), with 0 for an unseen term or an empty
        corpus. */
    method CalcularIdf(totalDocumentos: int)
      requires Valid()
      modifies this
      ensures Valid() && Repr == old(Repr)
      ensures Vista() == old(Vista()).(idf := IdfDe(old(frecuenciaDocumental), totalDocumentos))
    {
      if frecuenciaDocumental == 0 || totalDocumentos == 0 {
        idf := 0.0;
        return;
      }
      var cociente := totalDocumentos as real / frecuenciaDocumental as real;
      idf := CalcularLogaritmoBase10(cociente);
    }

    /** Sets every posting's weight to frequency times idf. */
    method ActualizarTfIdfPostings()
      requires Valid()
      modifies Repr
      ensures Valid() && Repr == old(Repr)
      ensures Vista() == old(Vista()).(postings := ActualizarVista(old(Vista().postings), idf))
    {
      if postings.EstaVacia() {
        return;
      }
      ghost var antes := Valores(postings.Contents);
      RecorrerActualizando();
      ActualizarConservaIds(antes, idf);
    }

    /** The cursor loop of `ActualizarTfIdfPostings`. */
    method RecorrerActualizando()
      requires Valid()
      modifies Repr
      ensures unchanged(this) && unchanged(old(postings))
      ensures Valores(postings.Contents) == ActualizarVista(old(Valores(postings.Contents)), idf)
    {
      PostingsDistintos();
      ghost var antes := Valores(postings.Contents);
      var iterador := postings.ObtenerIterator();
      while iterador.TieneSiguiente()
        invariant fresh(iterador) && iterador.Valid() && iterador.lista == postings
        invariant iterador.Elementos == postings.Contents
        invariant unchanged(this, postings)
        invariant forall j :: 0 <= j < |postings.Contents| ==>
          postings.Contents[j].Valor() == if j < iterador.Recorridos then ConTfIdf(antes[j], idf) else antes[j]
        decreases |iterador.Elementos| - iterador.Recorridos
      {
        ActualizarSiguiente(iterador, antes);
      }
      assert Valores(postings.Contents) == ActualizarVista(antes, idf);
    }

    /** One step of the cursor loop: the next posting gets its weight. */
    method ActualizarSiguiente(iterador: Iterator<Posting>, ghost antes: seq<PostingValor>)
      requires Valid() && iterador.Valid() && iterador.lista == postings
      requires iterador.Recorridos < |iterador.Elementos|
      requires forall i, j :: 0 <= i < j < |postings.Contents| ==> postings.Contents[i] != postings.Contents[j]
      requires |antes| == |postings.Contents|
      requires forall j :: 0 <= j < |postings.Contents| ==>
        postings.Contents[j].Valor() == if j < iterador.Recorridos then ConTfIdf(antes[j], idf) else antes[j]
      modifies iterador, Repr - {this, postings}
      ensures iterador.Valid() && iterador.Elementos == old(iterador.Elementos)
      ensures iterador.Recorridos == old(iterador.Recorridos) + 1
      ensures unchanged(this, postings)
      ensures forall j :: 0 <= j < |postings.Contents| ==>
        postings.Contents[j].Valor() == if j < iterador.Recorridos then ConTfIdf(antes[j], idf) else antes[j]
    {
      ghost var k := iterador.Recorridos;
      var posting := iterador.Siguiente();
      label Paso:
      assert posting.value == postings.Contents[k] && posting.value.Valor() == antes[k];
      posting.value.CalcularTfIdf(idf);
      assert forall j :: 0 <= j < |postings.Contents| && j != k ==> postings.Contents[j].Valor() == old@Paso(postings.Contents[j].Valor());
    }

    /** Same term; never equal to null. */
    predicate EsIgual(otro: TermInfo?)
      reads this, otro
      ensures EsIgual(otro) ==> otro != null
      ensures otro == this ==> EsIgual(otro)
    {
      otro != null && termino == otro.termino
    }

    /** The `object` overload: false for null and for any other class. */
    predicate Equals(obj: object?)
      reads this, if obj is TermInfo then {obj as TermInfo} else {}
      ensures Equals(obj) ==> obj is TermInfo
      ensures obj == this ==> Equals(obj)
    {
      obj != null && obj is TermInfo && EsIgual(obj as TermInfo)
    }
  }

  /** Two term records are equal exactly when they hold the same term,
      whatever their postings and weights; the `object` overload agrees,
      and the relation is an equivalence. */
  lemma EsIgualPorTermino(a: TermInfo, b: TermInfo, c: TermInfo)
    ensures a.EsIgual(b) <==> a.termino == b.termino
    ensures !a.EsIgual(null)
    ensures a.Equals(b) <==> a.EsIgual(b)
    ensures a.Equals(a)
    ensures a.Equals(b) ==> b.Equals(a)
    ensures a.Equals(b) && b.Equals(c) ==> a.Equals(c)
  {
  }
}
