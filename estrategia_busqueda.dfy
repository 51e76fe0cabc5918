/** The cosine search strategy of the canonical pipeline. The query and
    every document become TF-IDF vectors over the index's terms (one
    component per term, in list order); each document whose cosine
    similarity with the query is positive becomes a result, and the
    results are bubble-sorted by descending similarity. The `Vector` type
    the strategy works with is taken as a sequence of reals: empty means
    dimension zero, `*` is the dot product and the magnitude is the square
    root of the sum of squares. */
module BusquedaCoseno {
  import opened Comun
  import opened Listas
  import opened Calculos
  import Similitudes
  import opened Postings
  import opened TermInfos
  import opened Documentos
  import opened Resultados
  import Normalizacion
  import opened Tokenizacion
  import opened IndexBasica

  /* ---------- The strategy on values ---------- */

  /** `ContarFrecuenciaTermino`: how many tokens equal a non-empty term. */
  function Frecuencia(tokens: seq<string>, termino: string): nat
  {
    if termino == "" then 0 else Ocurrencias(tokens, termino)
  }

  /** The query's weight for one index term: frequency times idf. */
  function PesoConsulta(tokens: seq<string>, t: TermVista): real
  {
    Frecuencia(tokens, t.termino) as real * t.idf
  }

  function PesosConsulta(tokens: seq<string>, vs: seq<TermVista>): seq<real>
  {
    seq(|vs|, i requires 0 <= i < |vs| => PesoConsulta(tokens, vs[i]))
  }

  /** The tokens of the normalised query. */
  function TokensConsulta(consulta: string, stopwords: set<string>): seq<string>
  {
    Tokenizado(Normalizacion.Normalizado(consulta, stopwords))
  }

  /** `CrearVectorConsulta` on values: no vector for an empty query, an
      empty index or a query that leaves no token. */
  function VectorConsulta(consulta: string, vs: seq<TermVista>, stopwords: set<string>): seq<real>
  {
    if consulta == "" || vs == [] then []
    else
      var tokens := TokensConsulta(consulta, stopwords);
      if tokens == [] then [] else PesosConsulta(tokens, vs)
  }

  /** The tf-idf of the document's posting in a term, 0 without one. */
  function TfIdfEn(ps: seq<PostingValor>, id: string): real
  {
    if TieneId(ps, id) then ps[IndiceDe(ps, id)].tfIdf else 0.0
  }

  /** `CrearVectorDocumento` on values, for a document with this id. */
  function VectorDocumento(id: string, vs: seq<TermVista>): seq<real>
  {
    seq(|vs|, i requires 0 <= i < |vs| => TfIdfEn(vs[i].postings, id))
  }

  /** `CalcularSimilitud`: 0 for an empty vector, for vectors of different
      dimensions and for a zero magnitude; otherwise the dot product over
      the product of the magnitudes. */
  function Similitud(a: seq<real>, b: seq<real>, raiz: real -> real): (r: real)
    ensures r != 0.0 ==> |a| == |b| > 0 && Punto(a, b) != 0.0
  {
    if |a| == 0 || |b| == 0 || |a| != |b| then 0.0
    else
      var ma, mb := Norma(a, raiz), Norma(b, raiz);
      if ma == 0.0 || mb == 0.0 then 0.0 else Punto(a, b) / Por(ma, mb)
  }

  /** A result as a value: document, similarity and query text. */
  datatype Acierto = Acierto(documento: Documento?, similitud: real, consulta: string)

  /** The similarity of each document, given by its id, to the query
      vector. */
  function Puntajes(q: seq<real>, ids: seq<string>, vs: seq<TermVista>, raiz: real -> real): seq<real>
  {
    seq(|ids|, k requires 0 <= k < |ids| => Similitud(q, VectorDocumento(ids[k], vs), raiz))
  }

  /** Among the first `n` documents, those whose similarity in `sims` is
      positive, in document order. */
  function Aciertos(consulta: string, ds: seq<Documento>, sims: seq<real>, n: nat): seq<Acierto>
    requires n <= |ds| == |sims|
  {
    if n == 0 then []
    else
      Aciertos(consulta, ds, sims, n - 1)
        + (if sims[n - 1] > 0.0 then [Acierto(ds[n - 1], sims[n - 1], consulta)] else [])
  }

  /** What `BuscarDocumentos` finds, before sorting: nothing when the
      query, the index or the collection is empty or the query vector is
      empty or zero. */
  function Busqueda(consulta: string, vs: seq<TermVista>, ds: seq<Documento>, ids: seq<string>,
                    stopwords: set<string>, raiz: real -> real): seq<Acierto>
    requires |ds| == |ids|
  {
    if consulta == "" || vs == [] || ds == [] then []
    else
      var q := VectorConsulta(consulta, vs, stopwords);
      if q == [] || EsCero(q) then [] else Aciertos(consulta, ds, Puntajes(q, ids, vs, raiz), |ds|)
  }

  /** Non-increasing similarities. */
  predicate Descendente(s: seq<Acierto>)
  {
    forall i, j :: 0 <= i < j < |s| ==> s[i].similitud >= s[j].similitud
  }

  /* ---------- Lemmas on values ---------- */

  /** `CalcularSimilitud` agrees with the cosine of `SimilitudCoseno`,
      with its NaN (zero magnitude) read as 0. */
  lemma SimilitudEsCoseno(a: seq<real>, b: seq<real>, raiz: real -> real)
    requires |a| == |b| && RaizValida(raiz)
    ensures Similitud(a, b, raiz) ==
      match Similitudes.Coseno(a, b, raiz)
      case NaN => 0.0
      case Numero(v) => v
  {
    MagnitudCero(a, raiz);
    MagnitudCero(b, raiz);
    var ma, mb := Norma(a, raiz), Norma(b, raiz);
    if ma != 0.0 && mb != 0.0 {
      PorPositivo(ma, mb);
    }
    if |a| == 0 {
      assert EsCero(a);
    }
  }

  /** The similarity is symmetric, zero as soon as one vector is zero,
      non-negative on non-negative weights, and 1 for a non-zero vector
      with itself under an exact square root. */
  lemma SimilitudPropiedades(a: seq<real>, b: seq<real>, raiz: real -> real)
    requires RaizValida(raiz)
    ensures Similitud(a, b, raiz) == Similitud(b, a, raiz)
    ensures EsCero(a) || EsCero(b) ==> Similitud(a, b, raiz) == 0.0
    ensures (forall i :: 0 <= i < |a| ==> a[i] >= 0.0) && (forall i :: 0 <= i < |b| ==> b[i] >= 0.0)
      ==> Similitud(a, b, raiz) >= 0.0
    ensures RaizExacta(raiz) && !EsCero(a) ==> Similitud(a, a, raiz) == 1.0
  {
    if |a| == |b| {
      SimilitudEsCoseno(a, b, raiz);
      SimilitudEsCoseno(b, a, raiz);
      Similitudes.CosenoSimetrico(a, b, raiz);
      Similitudes.CosenoNaN(a, b, raiz);
      if (forall i :: 0 <= i < |a| ==> a[i] >= 0.0) && (forall i :: 0 <= i < |b| ==> b[i] >= 0.0) {
        Similitudes.CosenoNoNegativo(a, b, raiz);
      }
    }
    if RaizExacta(raiz) && !EsCero(a) {
      SimilitudEsCoseno(a, a, raiz);
      Similitudes.CosenoConsigoMismo(a, raiz);
    }
  }

  /** A non-zero dot product has a position where both vectors are
      non-zero. */
  lemma {:induction false} PuntoNoCero(a: seq<real>, b: seq<real>)
    requires |a| == |b| && Punto(a, b) != 0.0
    ensures exists i :: 0 <= i < |a| && a[i] != 0.0 && b[i] != 0.0
  {
    var n := |a| - 1;
    if Por(a[n], b[n]) != 0.0 {
      assert a[n] != 0.0 && b[n] != 0.0;
    } else {
      PuntoNoCero(a[..n], b[..n]);
      var i :| 0 <= i < n && a[..n][i] != 0.0 && b[..n][i] != 0.0;
      assert a[i] != 0.0 && b[i] != 0.0;
    }
  }

  /** A positive similarity needs vectors of one dimension that share a
      non-zero position. */
  lemma SimilitudPositiva(a: seq<real>, b: seq<real>, raiz: real -> real)
    requires Similitud(a, b, raiz) > 0.0
    ensures |a| == |b| > 0
    ensures exists i :: 0 <= i < |a| && a[i] != 0.0 && b[i] != 0.0
  {
    PuntoNoCero(a, b);
  }

  /** The query vector is zero exactly when every index term is absent
      from the query's tokens or has idf 0. */
  lemma ConsultaCero(tokens: seq<string>, vs: seq<TermVista>)
    ensures EsCero(PesosConsulta(tokens, vs)) <==>
      forall i :: 0 <= i < |vs| ==> Frecuencia(tokens, vs[i].termino) == 0 || vs[i].idf == 0.0
  {
    var q := PesosConsulta(tokens, vs);
    forall i | 0 <= i < |vs|
      ensures q[i] == 0.0 <==> Frecuencia(tokens, vs[i].termino) == 0 || vs[i].idf == 0.0
    {
      var f := Frecuencia(tokens, vs[i].termino) as real;
      if f != 0.0 && vs[i].idf != 0.0 {
        assert f * vs[i].idf != 0.0;
      }
    }
  }

  /** A component of a document's vector is non-zero only for a term with
      a posting for that document. */
  lemma DocumentoCero(id: string, vs: seq<TermVista>, i: nat)
    requires i < |vs| && VectorDocumento(id, vs)[i] != 0.0
    ensures TieneId(vs[i].postings, id)
  {
  }

  /** The hits among the first `n` documents are exactly those documents
      with a positive similarity, each with that similarity and the query
      text. */
  lemma {:induction false} AciertosSon(consulta: string, ds: seq<Documento>, sims: seq<real>, n: nat, a: Acierto)
    requires n <= |ds| == |sims|
    ensures |Aciertos(consulta, ds, sims, n)| <= n
    ensures a in Aciertos(consulta, ds, sims, n) <==>
      exists k :: 0 <= k < n && sims[k] > 0.0 && a == Acierto(ds[k], sims[k], consulta)
  {
    if n != 0 {
      AciertosSon(consulta, ds, sims, n - 1, a);
    }
  }

  /** Every document found shares a term with the query: some index term
      occurs among the query's tokens and has a posting for the document. */
  lemma AciertoComparteTermino(consulta: string, vs: seq<TermVista>, ds: seq<Documento>, ids: seq<string>,
                               stopwords: set<string>, raiz: real -> real, a: Acierto)
    requires |ds| == |ids| && a in Busqueda(consulta, vs, ds, ids, stopwords, raiz)
    ensures a.similitud > 0.0 && a.consulta == consulta
    ensures exists k, i :: (0 <= k < |ds| && 0 <= i < |vs| && a.documento == ds[k]
      && vs[i].termino in TokensConsulta(consulta, stopwords) && TieneId(vs[i].postings, ids[k]))
  {
    var q := VectorConsulta(consulta, vs, stopwords);
    var sims := Puntajes(q, ids, vs, raiz);
    AciertosSon(consulta, ds, sims, |ds|, a);
    var k :| 0 <= k < |ds| && sims[k] > 0.0 && a == Acierto(ds[k], sims[k], consulta);
    var d := VectorDocumento(ids[k], vs);
    SimilitudPositiva(q, d, raiz);
    var i :| 0 <= i < |q| && q[i] != 0.0 && d[i] != 0.0;
    DocumentoCero(ids[k], vs, i);
    var tokens := TokensConsulta(consulta, stopwords);
    assert Frecuencia(tokens, vs[i].termino) != 0;
  }

  /* ---------- Sorting on values ---------- */

  /** `s` with positions `j` and `j + 1` exchanged. */
  function Intercambio<T>(s: seq<T>, j: nat): seq<T>
    requires j + 1 < |s|
  {
    s[j := s[j + 1]][j + 1 := s[j]]
  }

  /** From `desde` on the similarities do not increase, and none of them
      exceeds one before `desde`. */
  predicate OrdenadoDesde(s: seq<Acierto>, desde: nat)
  {
    forall p, q :: 0 <= p < q < |s| && desde <= q ==> s[p].similitud >= s[q].similitud
  }

  /** No similarity up to `j` is below the one at `j`. */
  predicate MinimoEn(s: seq<Acierto>, j: nat)
  {
    forall p :: 0 <= p <= j < |s| ==> s[p].similitud >= s[j].similitud
  }

  /** One comparison of the bubble sort: a swap on a strict `<` carries the
      least similarity seen so far one step on, keeps the sorted tail, and
      permutes. */
  lemma BurbujaPaso(s: seq<Acierto>, j: nat, desde: nat)
    requires j + 1 < desde <= |s| && OrdenadoDesde(s, desde) && MinimoEn(s, j)
    ensures var t := if s[j].similitud < s[j + 1].similitud then Intercambio(s, j) else s;
      OrdenadoDesde(t, desde) && MinimoEn(t, j + 1) && multiset(t) == multiset(s)
  {
    if s[j].similitud < s[j + 1].similitud {
      var t := Intercambio(s, j);
      forall p, q | 0 <= p < q < |t| && desde <= q
        ensures t[p].similitud >= t[q].similitud
      {
        assert t[q] == s[q];
        if p == j {
          assert t[p] == s[j + 1];
        } else if p == j + 1 {
          assert t[p] == s[j];
        } else {
          assert t[p] == s[p];
        }
      }
    }
  }

  /** At the end of a pass the least similarity of the prefix sits at its
      last position, so the sorted tail grows by one. */
  lemma BurbujaFin(s: seq<Acierto>, m: nat)
    requires m < |s| && OrdenadoDesde(s, m + 1) && MinimoEn(s, m)
    ensures OrdenadoDesde(s, m)
  {
  }

  /* ---------- The strategy on the index ---------- */

  const NombreBusqueda: string := "Estrategia de Busqueda por Similitud Coseno TF-IDF"

  /** The number of tokens equal to the term, 0 for the empty term. */
  method ContarFrecuenciaTermino(tokens: array<string>, termino: string) returns (frecuencia: int)
    ensures frecuencia == Frecuencia(tokens[..], termino)
  {
    if termino == "" {
      return 0;
    }
    frecuencia := 0;
    for i := 0 to tokens.Length
      invariant frecuencia == Ocurrencias(tokens[..i], termino)
    {
      assert tokens[..i + 1][..i] == tokens[..i];
      if tokens[i] == termino {
        frecuencia := frecuencia + 1;
      }
    }
    assert tokens[..tokens.Length] == tokens[..];
  }

  /** The iterator over the index's terms, `vs` being their states. */
  ghost predicate RecorreTerminos(iterador: Iterator<TermInfo>, repr: set<object>, vs: seq<TermVista>)
    reads iterador, iterador.lista, iterador.Elementos, repr
  {
    && iterador.Valid() && iterador !in repr
    && TerminosBien(iterador.Elementos, repr) && Vistas(iterador.Elementos, repr) == vs
  }

  /** Takes the next term and weighs it for the query. */
  method PesoSiguiente(iterador: Iterator<TermInfo>, tokens: array<string>, ghost repr: set<object>,
                       ghost vs: seq<TermVista>) returns (peso: real)
    requires RecorreTerminos(iterador, repr, vs) && iterador.Recorridos < |iterador.Elementos|
    modifies iterador
    ensures RecorreTerminos(iterador, repr, vs) && iterador.Elementos == old(iterador.Elementos)
    ensures iterador.Recorridos == old(iterador.Recorridos) + 1
    ensures peso == PesoConsulta(tokens[..], vs[old(iterador.Recorridos)])
  {
    ghost var k := iterador.Recorridos;
    ghost var v := vs[k];
    assert v == iterador.Elementos[k].Vista();
    var siguiente := iterador.Siguiente();
    var termino := siguiente.value;
    assert termino.termino == v.termino && termino.idf == v.idf;
    var frecuenciaEnConsulta := ContarFrecuenciaTermino(tokens, termino.termino);
    peso := frecuenciaEnConsulta as real * termino.idf;
    TerminosIntactos(iterador.Elementos, repr);
  }

  /** The query's weights for the index's terms, whose states are `vs`,
      in list order. */
  method PesarTerminos(terminos: ListaDobleCircular<TermInfo>, ghost repr: set<object>, ghost vs: seq<TermVista>,
                       tokens: array<string>) returns (vector: seq<real>)
    requires terminos.Valid() && terminos !in repr
    requires TerminosBien(terminos.Contents, repr) && Vistas(terminos.Contents, repr) == vs
    ensures vector == PesosConsulta(tokens[..], vs)
  {
    var dimension := terminos.Count();
    vector := Ceros(dimension);
    var iterador := terminos.ObtenerIterator();
    var posicion := 0;
    while iterador.TieneSiguiente()
      invariant fresh(iterador) && iterador.lista == terminos && RecorreTerminos(iterador, repr, vs)
      invariant posicion == iterador.Recorridos <= |iterador.Elementos| == |vs| == dimension == |vector|
      invariant forall k :: 0 <= k < posicion ==> vector[k] == PesoConsulta(tokens[..], vs[k])
      decreases dimension - posicion
    {
      var tfIdf := PesoSiguiente(iterador, tokens, repr, vs);
      vector := vector[posicion := tfIdf];
      posicion := posicion + 1;
    }
  }

  /** The query's TF-IDF vector over the index's terms, whose states are
      `vs`. */
  method CrearVectorConsulta(consulta: string, terminos: ListaDobleCircular<TermInfo>, ghost repr: set<object>,
                             ghost vs: seq<TermVista>, stopwords: set<string>) returns (vector: seq<real>)
    requires terminos.Valid() && terminos !in repr
    requires TerminosBien(terminos.Contents, repr) && Vistas(terminos.Contents, repr) == vs
    ensures vector == VectorConsulta(consulta, vs, stopwords)
  {
    if consulta == "" || terminos.EstaVacia() {
      return [];
    }
    var tokens := TokenizarConsulta(consulta, stopwords);
    if tokens.Length == 0 {
      return [];
    }
    vector := PesarTerminos(terminos, repr, vs, tokens);
  }

  /** The query normalised and split into tokens. */
  method TokenizarConsulta(consulta: string, stopwords: set<string>) returns (tokens: array<string>)
    ensures fresh(tokens) && tokens[..] == TokensConsulta(consulta, stopwords)
  {
    var consultaNormalizada := Normalizacion.NormalizarTexto(consulta, stopwords);
    tokens := TokenizarTexto(consultaNormalizada);
  }

  /** The tf-idf of the term's posting for the document, 0 without one. */
  method TfIdfDe(termino: TermInfo, id: string) returns (tfIdf: real)
    requires termino.Valid()
    ensures tfIdf == TfIdfEn(termino.Vista().postings, id)
  {
    var posting := termino.BuscarPostingPorDocumento(id);
    tfIdf := 0.0;
    if posting != null {
      ghost var ps := termino.postings.Contents;
      ghost var k :| 0 <= k < |ps| && ps[k] == posting;
      assert IndiceDe(Valores(ps), id) == k;
      tfIdf := posting.tfIdf;
    }
  }

  /** Takes the next term and reads the document's tf-idf in it. */
  method TfIdfSiguiente(iterador: Iterator<TermInfo>, id: string, ghost repr: set<object>,
                        ghost vs: seq<TermVista>) returns (tfIdf: real)
    requires RecorreTerminos(iterador, repr, vs) && iterador.Recorridos < |iterador.Elementos|
    modifies iterador
    ensures RecorreTerminos(iterador, repr, vs) && iterador.Elementos == old(iterador.Elementos)
    ensures iterador.Recorridos == old(iterador.Recorridos) + 1
    ensures tfIdf == TfIdfEn(vs[old(iterador.Recorridos)].postings, id)
  {
    var siguiente := iterador.Siguiente();
    TerminosIntactos(iterador.Elementos, repr);
    tfIdf := TfIdfDe(siguiente.value, id);
  }

  /** The document's TF-IDF vector over the index's terms, whose states
      are `vs`; empty for no document. */
  method CrearVectorDocumento(documento: Documento?, terminos: ListaDobleCircular<TermInfo>, ghost repr: set<object>,
                              ghost vs: seq<TermVista>) returns (vector: seq<real>)
    requires terminos.Valid() && terminos !in repr
    requires TerminosBien(terminos.Contents, repr) && Vistas(terminos.Contents, repr) == vs
    ensures documento == null ==> vector == []
    ensures documento != null ==> vector == VectorDocumento(documento.id, vs)
  {
    if documento == null || terminos.EstaVacia() {
      return [];
    }
    var dimension := terminos.Count();
    vector := Ceros(dimension);
    var iterador := terminos.ObtenerIterator();
    var posicion := 0;
    while iterador.TieneSiguiente()
      invariant fresh(iterador) && iterador.lista == terminos && RecorreTerminos(iterador, repr, vs)
      invariant posicion == iterador.Recorridos <= |iterador.Elementos| == |vs| == dimension == |vector|
      invariant forall k :: 0 <= k < posicion ==> vector[k] == TfIdfEn(vs[k].postings, documento.id)
      decreases dimension - posicion
    {
      var tfIdf := TfIdfSiguiente(iterador, documento.id, repr, vs);
      vector := vector[posicion := tfIdf];
      posicion := posicion + 1;
    }
    assert vector == VectorDocumento(documento.id, vs);
  }

  /** The results as values, in list order. */
  ghost function VistaResultados(rs: seq<ResultadoBusqueda?>): (r: seq<Acierto>)
    reads rs
    ensures |r| == |rs|
    ensures forall i :: 0 <= i < |rs| && rs[i] != null ==>
      r[i] == Acierto(rs[i].documento, rs[i].similitud, rs[i].consultaOriginal)
  {
    seq(|rs|, i requires 0 <= i < |rs| reads rs =>
      if rs[i] == null then Acierto(null, 0.0, "")
      else Acierto(rs[i].documento, rs[i].similitud, rs[i].consultaOriginal))
  }

  /** Scores one document, whose id is `id`, against the query vector and
      appends its result when the similarity is positive. */
  method EvaluarDocumento(consulta: string, vectorConsulta: seq<real>, documento: Documento, ghost id: string,
                          terminos: ListaDobleCircular<TermInfo>, ghost repr: set<object>, ghost vs: seq<TermVista>,
                          resultados: ListaDobleCircular<ResultadoBusqueda>, raiz: real -> real)
    requires documento.id == id
    requires terminos.Valid() && terminos !in repr
    requires TerminosBien(terminos.Contents, repr) && Vistas(terminos.Contents, repr) == vs
    requires resultados.Valid() && resultados !in repr
    modifies resultados
    ensures resultados.Valid()
    ensures var s := Similitud(vectorConsulta, VectorDocumento(id, vs), raiz);
      VistaResultados(resultados.Contents) ==
        old(VistaResultados(resultados.Contents)) + (if s > 0.0 then [Acierto(documento, s, consulta)] else [])
  {
    var vectorDocumento := CrearVectorDocumento(documento, terminos, repr, vs);
    var similitud := Similitud(vectorConsulta, vectorDocumento, raiz);
    if similitud > 0.0 {
      var resultado := new ResultadoBusqueda(documento, similitud, consulta);
      resultados.Insertar(resultado);
    }
  }

  /** The state of the loop over the documents: the iterator walks `ds`,
      whose ids are `ids`; the iterator and the results list are apart
      from the terms' objects `repr`. */
  ghost predicate Evaluando(iteradorDocs: Iterator<Documento>, ds: seq<Documento>, ids: seq<string>,
                            repr: set<object>, resultados: ListaDobleCircular<ResultadoBusqueda>)
    reads iteradorDocs, iteradorDocs.lista, ds, resultados
  {
    && iteradorDocs.Valid() && iteradorDocs.Elementos == ds && iteradorDocs !in repr
    && |ds| == |ids| && (forall k :: 0 <= k < |ids| ==> ds[k].id == ids[k])
    && resultados.Valid() && resultados !in repr
  }

  /** Takes the next document and scores it. */
  method EvaluarSiguiente(consulta: string, vectorConsulta: seq<real>, iteradorDocs: Iterator<Documento>,
                          ghost ds: seq<Documento>, ghost ids: seq<string>, terminos: ListaDobleCircular<TermInfo>,
                          ghost repr: set<object>, ghost vs: seq<TermVista>,
                          resultados: ListaDobleCircular<ResultadoBusqueda>, raiz: real -> real,
                          ghost k: nat, ghost hechos: seq<Acierto>)
    requires Evaluando(iteradorDocs, ds, ids, repr, resultados)
    requires terminos.Valid() && terminos !in repr
    requires TerminosBien(terminos.Contents, repr) && Vistas(terminos.Contents, repr) == vs
    requires iteradorDocs.Recorridos == k < |ds|
    requires VistaResultados(resultados.Contents) == hechos
    modifies iteradorDocs, resultados
    ensures Evaluando(iteradorDocs, ds, ids, repr, resultados)
    ensures iteradorDocs.Recorridos == k + 1
    ensures var s := Similitud(vectorConsulta, VectorDocumento(ids[k], vs), raiz);
      VistaResultados(resultados.Contents) == hechos + (if s > 0.0 then [Acierto(ds[k], s, consulta)] else [])
  {
    var siguiente := iteradorDocs.Siguiente();
    assert siguiente.value == ds[k];
    assert VistaResultados(resultados.Contents) == hechos;
    TerminosIntactos(terminos.Contents, repr);
    EvaluarDocumento(consulta, vectorConsulta, siguiente.value, ids[k], terminos, repr, vs, resultados, raiz);
  }

  /** One more document adds its hit, if it has one, at the end. */
  lemma AciertosPaso(consulta: string, ds: seq<Documento>, sims: seq<real>, n: nat)
    requires n < |ds| == |sims|
    ensures Aciertos(consulta, ds, sims, n + 1) ==
      Aciertos(consulta, ds, sims, n) + (if sims[n] > 0.0 then [Acierto(ds[n], sims[n], consulta)] else [])
  {
  }

  /** An empty results list and an iterator at the first document. */
  method IniciarEvaluacion(terminos: ListaDobleCircular<TermInfo>, ghost repr: set<object>, ghost vs: seq<TermVista>,
                           documentos: ListaDobleCircular<Documento>, ghost ids: seq<string>)
    returns (resultados: ListaDobleCircular<ResultadoBusqueda>, iteradorDocs: Iterator<Documento>)
    requires terminos.Valid() && terminos !in repr
    requires TerminosBien(terminos.Contents, repr) && Vistas(terminos.Contents, repr) == vs
    requires documentos.Valid() && |ids| == |documentos.Contents|
    requires forall k :: 0 <= k < |ids| ==> documentos.Contents[k].id == ids[k]
    ensures fresh(resultados) && fresh(iteradorDocs) && iteradorDocs.lista == documentos
    ensures Evaluando(iteradorDocs, documentos.Contents, ids, repr, resultados)
    ensures iteradorDocs.Recorridos == 0 && resultados.Contents == []
  {
    resultados := new ListaDobleCircular<ResultadoBusqueda>();
    iteradorDocs := documentos.ObtenerIterator();
  }

  /** One result per document with a positive similarity to the query
      vector, in document order; `ids` are the documents' ids. */
  method EvaluarDocumentos(consulta: string, vectorConsulta: seq<real>, terminos: ListaDobleCircular<TermInfo>,
                           ghost repr: set<object>, ghost vs: seq<TermVista>,
                           documentos: ListaDobleCircular<Documento>, ghost ids: seq<string>, raiz: real -> real)
    returns (resultados: ListaDobleCircular<ResultadoBusqueda>)
    requires terminos.Valid() && terminos !in repr
    requires TerminosBien(terminos.Contents, repr) && Vistas(terminos.Contents, repr) == vs
    requires documentos.Valid() && |ids| == |documentos.Contents|
    requires forall k :: 0 <= k < |ids| ==> documentos.Contents[k].id == ids[k]
    ensures fresh(resultados) && resultados.Valid()
    ensures VistaResultados(resultados.Contents) ==
      Aciertos(consulta, documentos.Contents, Puntajes(vectorConsulta, ids, vs, raiz), |ids|)
  {
    ghost var ds := documentos.Contents;
    ghost var sims := Puntajes(vectorConsulta, ids, vs, raiz);
    var iteradorDocs;
    resultados, iteradorDocs := IniciarEvaluacion(terminos, repr, vs, documentos, ids);
    while iteradorDocs.TieneSiguiente()
      invariant fresh(iteradorDocs) && fresh(resultados) && iteradorDocs.lista == documentos
      invariant Evaluado(consulta, iteradorDocs, ds, ids, repr, resultados, sims)
      decreases |ds| - iteradorDocs.Recorridos
    {
      TerminosIntactos(terminos.Contents, repr);
      assert sims[iteradorDocs.Recorridos] ==
        Similitud(vectorConsulta, VectorDocumento(ids[iteradorDocs.Recorridos], vs), raiz);
      AvanzarEvaluacion(consulta, vectorConsulta, iteradorDocs, ds, ids, terminos, repr, vs, resultados, raiz, sims);
    }
  }

  /** The loop state of `EvaluarDocumentos`: the documents walked so far
      have left exactly their hits in the results list. */
  ghost predicate Evaluado(consulta: string, iteradorDocs: Iterator<Documento>, ds: seq<Documento>,
                           ids: seq<string>, repr: set<object>, resultados: ListaDobleCircular<ResultadoBusqueda>,
                           sims: seq<real>)
    reads iteradorDocs, iteradorDocs.lista, ds, resultados, resultados.Contents
  {
    && Evaluando(iteradorDocs, ds, ids, repr, resultados)
    && |sims| == |ds| && iteradorDocs.Recorridos <= |ds|
    && VistaResultados(resultados.Contents) == Aciertos(consulta, ds, sims, iteradorDocs.Recorridos)
  }

  /** One turn of the loop over the documents. */
  method AvanzarEvaluacion(consulta: string, vectorConsulta: seq<real>, iteradorDocs: Iterator<Documento>,
                           ghost ds: seq<Documento>, ghost ids: seq<string>, terminos: ListaDobleCircular<TermInfo>,
                           ghost repr: set<object>, ghost vs: seq<TermVista>,
                           resultados: ListaDobleCircular<ResultadoBusqueda>, raiz: real -> real, ghost sims: seq<real>)
    requires Evaluado(consulta, iteradorDocs, ds, ids, repr, resultados, sims)
    requires terminos.Valid() && terminos !in repr
    requires TerminosBien(terminos.Contents, repr) && Vistas(terminos.Contents, repr) == vs
    requires iteradorDocs.Recorridos < |ds|
    requires sims[iteradorDocs.Recorridos] ==
      Similitud(vectorConsulta, VectorDocumento(ids[iteradorDocs.Recorridos], vs), raiz)
    modifies iteradorDocs, resultados
    ensures Evaluado(consulta, iteradorDocs, ds, ids, repr, resultados, sims)
    ensures iteradorDocs.Recorridos == old(iteradorDocs.Recorridos) + 1
  {
    ghost var k := iteradorDocs.Recorridos;
    ghost var hechos := Aciertos(consulta, ds, sims, k);
    AciertosPaso(consulta, ds, sims, k);
    EvaluarSiguiente(consulta, vectorConsulta, iteradorDocs, ds, ids, terminos, repr, vs, resultados, raiz, k, hechos);
    assert VistaResultados(resultados.Contents) == Aciertos(consulta, ds, sims, k + 1);
  }

  /** No slot of the array is null. */
  ghost predicate SinNulos(a: array<ResultadoBusqueda?>)
    reads a
  {
    forall k :: 0 <= k < a.Length ==> a[k] != null
  }

  /** Exchanges two neighbouring slots. */
  method Intercambiar(a: array<ResultadoBusqueda?>, j: nat)
    requires j + 1 < a.Length && SinNulos(a)
    modifies a
    ensures a[..] == Intercambio(old(a[..]), j) && SinNulos(a)
    ensures VistaResultados(a[..]) == Intercambio(old(VistaResultados(a[..])), j)
  {
    a[j], a[j + 1] := a[j + 1], a[j];
  }

  /** One pass of the bubble sort over the unsorted prefix: it carries the
      least similarity of the prefix to its last slot. */
  method Pasada(a: array<ResultadoBusqueda?>, i: nat, ghost v0: seq<Acierto>)
    requires i + 1 < a.Length && SinNulos(a)
    requires OrdenadoDesde(VistaResultados(a[..]), a.Length - i)
    requires multiset(VistaResultados(a[..])) == multiset(v0)
    modifies a
    ensures SinNulos(a)
    ensures OrdenadoDesde(VistaResultados(a[..]), a.Length - i - 1)
    ensures multiset(VistaResultados(a[..])) == multiset(v0)
  {
    var j := 0;
    ghost var v := VistaResultados(a[..]);
    while j < a.Length - 1 - i
      invariant 0 <= j <= a.Length - 1 - i && SinNulos(a) && v == VistaResultados(a[..])
      invariant OrdenadoDesde(v, a.Length - i) && MinimoEn(v, j) && multiset(v) == multiset(v0)
    {
      BurbujaPaso(v, j, a.Length - i);
      if a[j].similitud < a[j + 1].similitud {
        Intercambiar(a, j);
        v := Intercambio(v, j);
      }
      j := j + 1;
    }
    BurbujaFin(v, a.Length - 1 - i);
  }

  /** The bubble sort of the source, by non-increasing similarity; a swap
      happens only on a strict `<`, so equal similarities keep their
      order. */
  method OrdenarBurbuja(a: array<ResultadoBusqueda?>, ghost v0: seq<Acierto>)
    requires SinNulos(a) && VistaResultados(a[..]) == v0
    modifies a
    ensures SinNulos(a)
    ensures multiset(VistaResultados(a[..])) == multiset(v0)
    ensures Descendente(VistaResultados(a[..]))
  {
    var i := 0;
    while i + 1 < a.Length
      invariant i <= a.Length && SinNulos(a)
      invariant OrdenadoDesde(VistaResultados(a[..]), a.Length - i)
      invariant multiset(VistaResultados(a[..])) == multiset(v0)
    {
      Pasada(a, i, v0);
      i := i + 1;
    }
  }

  /** The list's elements in an array of its size, in list order. */
  method ConvertirListaAArreglo(lista: ListaDobleCircular<ResultadoBusqueda>) returns (arreglo: array<ResultadoBusqueda?>)
    requires lista.Valid()
    ensures fresh(arreglo) && arreglo[..] == lista.Contents
  {
    var tamano := lista.Count();
    arreglo := new ResultadoBusqueda?[tamano];
    var iterador := lista.ObtenerIterator();
    var indice := 0;
    while iterador.TieneSiguiente() && indice < tamano
      invariant fresh(iterador) && iterador.Valid() && iterador.lista == lista
      invariant iterador.Elementos == lista.Contents && iterador.Recorridos == indice <= tamano
      invariant arreglo[..indice] == lista.Contents[..indice]
      decreases tamano - indice
    {
      var siguiente := iterador.Siguiente();
      arreglo[indice] := siguiente.value;
      indice := indice + 1;
    }
    assert arreglo[..] == arreglo[..indice];
  }

  /** A new list with the array's elements in array order. */
  method ConvertirArregloALista(arreglo: array<ResultadoBusqueda?>) returns (lista: ListaDobleCircular<ResultadoBusqueda>)
    requires SinNulos(arreglo)
    ensures fresh(lista) && lista.Valid() && lista.Contents == arreglo[..]
  {
    lista := new ListaDobleCircular<ResultadoBusqueda>();
    for i := 0 to arreglo.Length
      invariant fresh(lista) && lista.Valid() && lista.Contents == arreglo[..i]
    {
      lista.Insertar(arreglo[i]);
      assert arreglo[..i + 1] == arreglo[..i] + [arreglo[i]];
    }
    assert arreglo[..arreglo.Length] == arreglo[..];
  }

  /** The results, whose values are `v`, by non-increasing similarity:
      the same list when it has at most one element, otherwise a new
      list. */
  method OrdenarResultadosPorSimilitud(resultados: ListaDobleCircular<ResultadoBusqueda>, ghost v: seq<Acierto>)
    returns (ordenados: ListaDobleCircular<ResultadoBusqueda>)
    requires resultados.Valid() && VistaResultados(resultados.Contents) == v
    ensures ordenados.Valid() && (ordenados == resultados || fresh(ordenados))
    ensures |v| <= 1 ==> ordenados == resultados
    ensures multiset(VistaResultados(ordenados.Contents)) == multiset(v)
    ensures Descendente(VistaResultados(ordenados.Contents))
  {
    if resultados.EstaVacia() {
      return resultados;
    }
    var n := resultados.Count();
    if n <= 1 {
      return resultados;
    }
    var arregloResultados := ConvertirListaAArreglo(resultados);
    OrdenarBurbuja(arregloResultados, v);
    ordenados := ConvertirArregloALista(arregloResultados);
  }

  /** The whole search: the results are the documents `Busqueda` finds,
      each once, by non-increasing similarity. */
  method BuscarDocumentos(consulta: string, terminos: ListaDobleCircular<TermInfo>, ghost repr: set<object>,
                          ghost vs: seq<TermVista>, documentos: ListaDobleCircular<Documento>, ghost ids: seq<string>,
                          stopwords: set<string>, raiz: real -> real)
    returns (resultados: ListaDobleCircular<ResultadoBusqueda>)
    requires terminos.Valid() && terminos !in repr
    requires TerminosBien(terminos.Contents, repr) && Vistas(terminos.Contents, repr) == vs
    requires documentos.Valid() && Ids(documentos.Contents) == ids
    ensures resultados.Valid()
    ensures multiset(VistaResultados(resultados.Contents)) ==
      multiset(Busqueda(consulta, vs, documentos.Contents, ids, stopwords, raiz))
    ensures Descendente(VistaResultados(resultados.Contents))
  {
    if consulta == "" || terminos.EstaVacia() || documentos.EstaVacia() {
      resultados := new ListaDobleCircular<ResultadoBusqueda>();
      return;
    }
    var vectorConsulta := CrearVectorConsulta(consulta, terminos, repr, vs, stopwords);
    TerminosIntactos(terminos.Contents, repr);
    if |vectorConsulta| == 0 || EsCero(vectorConsulta) {
      resultados := new ListaDobleCircular<ResultadoBusqueda>();
      return;
    }
    resultados := EvaluarYOrdenar(consulta, vectorConsulta, terminos, repr, vs, documentos, ids, raiz);
  }

  /** Scores every document against the query vector and sorts the hits. */
  method EvaluarYOrdenar(consulta: string, vectorConsulta: seq<real>, terminos: ListaDobleCircular<TermInfo>,
                         ghost repr: set<object>, ghost vs: seq<TermVista>,
                         documentos: ListaDobleCircular<Documento>, ghost ids: seq<string>, raiz: real -> real)
    returns (resultados: ListaDobleCircular<ResultadoBusqueda>)
    requires terminos.Valid() && terminos !in repr
    requires TerminosBien(terminos.Contents, repr) && Vistas(terminos.Contents, repr) == vs
    requires documentos.Valid() && Ids(documentos.Contents) == ids
    ensures resultados.Valid()
    ensures multiset(VistaResultados(resultados.Contents)) ==
      multiset(Aciertos(consulta, documentos.Contents, Puntajes(vectorConsulta, ids, vs, raiz), |ids|))
    ensures Descendente(VistaResultados(resultados.Contents))
  {
    var encontrados := EvaluarDocumentos(consulta, vectorConsulta, terminos, repr, vs, documentos, ids, raiz);
    resultados := OrdenarResultadosPorSimilitud(encontrados, VistaResultados(encontrados.Contents));
  }
}
