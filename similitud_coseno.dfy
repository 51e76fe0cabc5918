/** Cosine similarity over `Calculos.Vector`: one pair, or a query against
    a list of document vectors, sorted by descending similarity with a
    bubble sort. A C# `double` division 0/0 gives NaN, which the model
    keeps as its own value. */
module Similitudes {
  import opened Comun
  import opened Listas
  import opened Calculos

  /** A C# `double` as this code can produce it: a number, or the NaN of
      0/0. */
  datatype Doble = Numero(valor: real) | NaN

  datatype ResultadoSimilitud = ResultadoSimilitud(documentoId: int, similitud: Doble)

  /** C#'s `<` on doubles: false as soon as one side is NaN. */
  predicate Menor(a: Doble, b: Doble)
  {
    a.Numero? && b.Numero? && a.valor < b.valor
  }

  /** dot / (|a| * |b|), or NaN when the product of the magnitudes is
      zero. */
  function Coseno(a: seq<real>, b: seq<real>, raiz: real -> real): (r: Doble)
    requires |a| == |b|
  {
    var denominador := Por(Norma(a, raiz), Norma(b, raiz));
    if denominador == 0.0 then NaN else Numero(Punto(a, b) / denominador)
  }

  /** With a valid square root the NaN case is exactly "one of the two
      vectors is zero", and then the dot product is zero too: the division
      really is 0/0. */
  lemma CosenoNaN(a: seq<real>, b: seq<real>, raiz: real -> real)
    requires |a| == |b| && RaizValida(raiz)
    ensures Coseno(a, b, raiz) == NaN <==> EsCero(a) || EsCero(b)
    ensures Coseno(a, b, raiz) == NaN ==> Punto(a, b) == 0.0
  {
    MagnitudCero(a, raiz);
    MagnitudCero(b, raiz);
    var ma, mb := Norma(a, raiz), Norma(b, raiz);
    if ma != 0.0 && mb != 0.0 {
      assert ma > 0.0 && mb > 0.0;
      PorPositivo(ma, mb);
    }
    if EsCero(a) {
      PuntoConCero(a, b);
    } else if EsCero(b) {
      PuntoConCero(b, a);
      PuntoSimetrico(a, b);
    }
  }

  /** The similarity does not depend on the order of its arguments. */
  lemma CosenoSimetrico(a: seq<real>, b: seq<real>, raiz: real -> real)
    requires |a| == |b|
    ensures Coseno(a, b, raiz) == Coseno(b, a, raiz)
  {
    PuntoSimetrico(a, b);
  }

  /** Vectors with no negative component (term weights) have a similarity
      that is NaN or non-negative. */
  lemma CosenoNoNegativo(a: seq<real>, b: seq<real>, raiz: real -> real)
    requires |a| == |b| && RaizValida(raiz)
    requires forall i :: 0 <= i < |a| ==> a[i] >= 0.0 && b[i] >= 0.0
    ensures Coseno(a, b, raiz).Numero? ==> Coseno(a, b, raiz).valor >= 0.0
  {
    PuntoNoNegativo(a, b);
    MagnitudCero(a, raiz);
    MagnitudCero(b, raiz);
    var ma, mb := Norma(a, raiz), Norma(b, raiz);
    if ma != 0.0 && mb != 0.0 {
      PorPositivo(ma, mb);
    }
  }

  /** With an exact square root, a non-zero vector has similarity one with
      itself. */
  lemma CosenoConsigoMismo(a: seq<real>, raiz: real -> real)
    requires RaizValida(raiz) && RaizExacta(raiz) && !EsCero(a)
    ensures Coseno(a, a, raiz) == Numero(1.0)
  {
    MagnitudCero(a, raiz);
    SumaCuadradosCero(a);
    var m := Norma(a, raiz);
    assert Por(m, m) == SumaCuadrados(a);
    assert SumaCuadrados(a) / SumaCuadrados(a) == 1.0;
  }

  /** Throws (a precondition here) when the lengths differ; otherwise the
      dot product over the product of the magnitudes, without any guard. */
  method CalcularSimilitud(vectorA: Vector, vectorB: Vector, raiz: real -> real) returns (r: Doble)
    requires vectorA.Longitud() == vectorB.Longitud()
    ensures r == Coseno(vectorA.elementos[..], vectorB.elementos[..], raiz)
  {
    var productoPunto := vectorA.ProductoPunto(vectorB);
    var magnitudA := vectorA.Magnitud(raiz);
    var magnitudB := vectorB.Magnitud(raiz);
    assert magnitudA * magnitudB == Por(magnitudA, magnitudB);
    if magnitudA * magnitudB == 0.0 {
      r := NaN;
    } else {
      r := Numero(productoPunto / (magnitudA * magnitudB));
    }
  }

  /** The document id paired with the `i`-th vector: the `i`-th id when
      the id list has one, otherwise `i` itself. */
  function IdPara(ids: Option<seq<int>>, i: nat): int
  {
    if ids.Some? && i < |ids.value| then ids.value[i] else i
  }

  /** The `i`-th unsorted result: the `i`-th document's similarity to the
      query, under the id `IdPara` gives it. */
  function Resultado(consulta: seq<real>, documento: seq<real>, ids: Option<seq<int>>, i: nat,
                     raiz: real -> real): ResultadoSimilitud
    requires |documento| == |consulta|
  {
    ResultadoSimilitud(IdPara(ids, i), Coseno(consulta, documento, raiz))
  }

  /** The similarity as a real, for results known to hold a number. */
  function Clave(r: ResultadoSimilitud): real
  {
    if r.similitud.Numero? then r.similitud.valor else 0.0
  }

  /** No NaN, and descending by similarity. */
  predicate Descendente(s: seq<ResultadoSimilitud>)
  {
    SinNaN(s) && forall i, j :: 0 <= i < j < |s| ==> Clave(s[i]) >= Clave(s[j])
  }

  predicate SinNaN(s: seq<ResultadoSimilitud>)
  {
    forall i :: 0 <= i < |s| ==> s[i].similitud.Numero?
  }

  /** Walks the id list to its `indice`-th element, as the source's inner
      traversal does. */
  method IdEnPosicion(idsDocumentos: ListaDobleCircular?<int>, indice: nat) returns (docId: int)
    requires idsDocumentos != null ==> idsDocumentos.Valid()
    ensures docId == IdPara(if idsDocumentos == null then None else Some(idsDocumentos.Contents), indice)
  {
    docId := indice;
    if idsDocumentos != null {
      var contador := 0;
      var iterador := idsDocumentos.ObtenerIterator();
      while iterador.TieneSiguiente()
        invariant fresh(iterador) && iterador.Valid() && iterador.lista == idsDocumentos
        invariant iterador.Elementos == idsDocumentos.Contents
        invariant contador == iterador.Recorridos
        invariant docId == if indice < contador then idsDocumentos.Contents[indice] else indice
        decreases |iterador.Elementos| - iterador.Recorridos
      {
        var id := iterador.Siguiente();
        if contador == indice {
          docId := id.value;
        }
        contador := contador + 1;
      }
    }
  }

  /** One result per document vector, then sorted. Lengths that differ from
      the query's throw in the source; here they are a precondition.
      `sinOrdenar` names the results before sorting. */
  method CalcularSimilitudes(consulta: Vector, documentos: ListaDobleCircular<Vector>,
                             idsDocumentos: ListaDobleCircular?<int>, raiz: real -> real)
    returns (resultados: ListaDobleCircular<ResultadoSimilitud>, ghost sinOrdenar: seq<ResultadoSimilitud>)
    requires documentos.Valid()
    requires idsDocumentos != null ==> idsDocumentos.Valid()
    requires forall i :: 0 <= i < |documentos.Contents| ==> documentos.Contents[i].Longitud() == consulta.Longitud()
    ensures fresh(resultados) && resultados.Valid() && unchanged(documentos)
    ensures |sinOrdenar| == |documentos.Contents|
    ensures forall i :: 0 <= i < |documentos.Contents| ==> |documentos.Contents[i].elementos[..]| == |consulta.elementos[..]|
    ensures forall i :: 0 <= i < |sinOrdenar| ==>
      sinOrdenar[i] == Resultado(consulta.elementos[..], documentos.Contents[i].elementos[..],
                                 if idsDocumentos == null then None else Some(idsDocumentos.Contents), i, raiz)
    ensures multiset(resultados.Contents) == multiset(sinOrdenar)
    ensures SinNaN(sinOrdenar) ==> Descendente(resultados.Contents)
  {
    var lista := SimilitudesEnOrden(consulta, documentos, idsDocumentos, raiz);
    sinOrdenar := lista.Contents;
    resultados := OrdenarPorSimilitud(lista);
  }

  /** The traversal of `CalcularSimilitudes`: one result per document
      vector, in list order. */
  method SimilitudesEnOrden(consulta: Vector, documentos: ListaDobleCircular<Vector>,
                            idsDocumentos: ListaDobleCircular?<int>, raiz: real -> real)
    returns (sinOrdenar: ListaDobleCircular<ResultadoSimilitud>)
    requires documentos.Valid()
    requires idsDocumentos != null ==> idsDocumentos.Valid()
    requires forall i :: 0 <= i < |documentos.Contents| ==> documentos.Contents[i].Longitud() == consulta.Longitud()
    ensures fresh(sinOrdenar) && sinOrdenar.Valid() && unchanged(documentos)
    ensures |sinOrdenar.Contents| == |documentos.Contents|
    ensures forall i :: 0 <= i < |documentos.Contents| ==> |documentos.Contents[i].elementos[..]| == |consulta.elementos[..]|
    ensures forall i :: 0 <= i < |sinOrdenar.Contents| ==>
      sinOrdenar.Contents[i] == Resultado(consulta.elementos[..], documentos.Contents[i].elementos[..],
                                          if idsDocumentos == null then None else Some(idsDocumentos.Contents), i, raiz)
  {
    ghost var ids := if idsDocumentos == null then None else Some(idsDocumentos.Contents);
    sinOrdenar := new ListaDobleCircular<ResultadoSimilitud>();
    var indice := 0;
    var iterador := documentos.ObtenerIterator();
    while iterador.TieneSiguiente()
      invariant fresh(iterador) && iterador.Valid() && iterador.lista == documentos
      invariant iterador.Elementos == documentos.Contents
      invariant fresh(sinOrdenar) && sinOrdenar.Valid()
      invariant indice == iterador.Recorridos == |sinOrdenar.Contents|
      invariant unchanged(documentos)
      invariant ResultadosHasta(sinOrdenar.Contents, consulta, documentos.Contents, ids, raiz)
      decreases |iterador.Elementos| - iterador.Recorridos
    {
      SimilitudSiguiente(consulta, iterador, idsDocumentos, indice, sinOrdenar, raiz, ids);
      indice := indice + 1;
    }
  }

  /** `r` holds, in order, the results of the first `|r|` vectors of `docs`. */
  ghost predicate ResultadosHasta(r: seq<ResultadoSimilitud>, consulta: Vector, docs: seq<Vector>,
                                  ids: Option<seq<int>>, raiz: real -> real)
    reads consulta.elementos, set i | 0 <= i < |docs| :: docs[i].elementos
  {
    |r| <= |docs| &&
    forall i :: 0 <= i < |r| ==>
      |docs[i].elementos[..]| == |consulta.elementos[..]| &&
      r[i] == Resultado(consulta.elementos[..], docs[i].elementos[..], ids, i, raiz)
  }

  /** One more result keeps `ResultadosHasta`. */
  lemma ResultadosHastaAgregar(r: seq<ResultadoSimilitud>, x: ResultadoSimilitud, consulta: Vector, docs: seq<Vector>,
                               ids: Option<seq<int>>, raiz: real -> real)
    requires ResultadosHasta(r, consulta, docs, ids, raiz) && |r| < |docs|
    requires |docs[|r|].elementos[..]| == |consulta.elementos[..]|
    requires x == Resultado(consulta.elementos[..], docs[|r|].elementos[..], ids, |r|, raiz)
    ensures ResultadosHasta(r + [x], consulta, docs, ids, raiz)
  {
  }

  /** The body of the traversal: the next vector, its similarity, its id,
      one insertion. */
  method SimilitudSiguiente(consulta: Vector, iterador: Iterator<Vector>, idsDocumentos: ListaDobleCircular?<int>,
                            indice: nat, sinOrdenar: ListaDobleCircular<ResultadoSimilitud>, raiz: real -> real,
                            ghost ids: Option<seq<int>>)
    requires iterador.Valid() && iterador.Recorridos < |iterador.Elementos| && indice == iterador.Recorridos
    requires idsDocumentos != null ==> idsDocumentos.Valid()
    requires ids == if idsDocumentos == null then None else Some(idsDocumentos.Contents)
    requires forall i :: 0 <= i < |iterador.Elementos| ==> iterador.Elementos[i].Longitud() == consulta.Longitud()
    requires sinOrdenar.Valid() && |sinOrdenar.Contents| == indice
    requires ResultadosHasta(sinOrdenar.Contents, consulta, iterador.Elementos, ids, raiz)
    modifies iterador, sinOrdenar
    ensures iterador.Valid() && iterador.Elementos == old(iterador.Elementos)
    ensures iterador.Recorridos == indice + 1
    ensures sinOrdenar.Valid() && |sinOrdenar.Contents| == indice + 1
    ensures ResultadosHasta(sinOrdenar.Contents, consulta, iterador.Elementos, ids, raiz)
  {
    var vectorDoc := iterador.Siguiente();
    ghost var antes := sinOrdenar.Contents;
    AgregarSimilitud(consulta, vectorDoc.value, idsDocumentos, indice, sinOrdenar, raiz);
    ResultadosHastaAgregar(antes, sinOrdenar.Contents[indice], consulta, iterador.Elementos, ids, raiz);
  }

  /** One similarity, its id, one insertion. */
  method AgregarSimilitud(consulta: Vector, vectorDoc: Vector, idsDocumentos: ListaDobleCircular?<int>, indice: nat,
                          resultados: ListaDobleCircular<ResultadoSimilitud>, raiz: real -> real)
    requires vectorDoc.Longitud() == consulta.Longitud()
    requires idsDocumentos != null ==> idsDocumentos.Valid()
    requires resultados.Valid()
    modifies resultados
    ensures resultados.Valid()
    ensures resultados.Contents == old(resultados.Contents) + [Resultado(consulta.elementos[..], vectorDoc.elementos[..],
      if idsDocumentos == null then None else Some(idsDocumentos.Contents), indice, raiz)]
  {
    var similitud := CalcularSimilitud(consulta, vectorDoc, raiz);
    var docId := IdEnPosicion(idsDocumentos, indice);
    resultados.Insertar(ResultadoSimilitud(docId, similitud));
  }

  /** Returns the list itself when it is empty; otherwise copies it into an
      array, bubble-sorts that by descending similarity (swapping only when
      the left one is strictly smaller, so NaN never moves past anything)
      and builds a new list from it. */
  method OrdenarPorSimilitud(resultados: ListaDobleCircular<ResultadoSimilitud>)
    returns (ordenados: ListaDobleCircular<ResultadoSimilitud>)
    requires resultados.Valid()
    ensures ordenados.Valid()
    ensures resultados.Contents == [] ==> ordenados == resultados
    ensures resultados.Contents != [] ==> fresh(ordenados)
    ensures multiset(ordenados.Contents) == multiset(resultados.Contents)
    ensures SinNaN(resultados.Contents) ==> Descendente(ordenados.Contents)
  {
    if resultados.EstaVacia() {
      return resultados;
    }
    var arreglo := CopiarEnArreglo(resultados);
    OrdenarBurbuja(arreglo);
    ordenados := ListaDesdeArreglo(arreglo);
  }

  /** The traversal that fills the temporary array, in list order. */
  method CopiarEnArreglo(lista: ListaDobleCircular<ResultadoSimilitud>) returns (arreglo: array<ResultadoSimilitud>)
    requires lista.Valid()
    ensures fresh(arreglo) && arreglo[..] == lista.Contents
  {
    var n := lista.Count();
    arreglo := new ResultadoSimilitud[n](_ => ResultadoSimilitud(0, NaN));
    var indice := 0;
    var iterador := lista.ObtenerIterator();
    while iterador.TieneSiguiente()
      invariant fresh(iterador) && iterador.Valid() && iterador.lista == lista
      invariant iterador.Elementos == lista.Contents
      invariant indice == iterador.Recorridos
      invariant arreglo[..indice] == lista.Contents[..indice]
      decreases |iterador.Elementos| - iterador.Recorridos
    {
      SiguienteEnArreglo(iterador, arreglo, indice);
      indice := indice + 1;
    }
    assert arreglo[..] == arreglo[..indice];
  }

  /** A new list holding the array's elements in order. */
  method ListaDesdeArreglo(arreglo: array<ResultadoSimilitud>) returns (lista: ListaDobleCircular<ResultadoSimilitud>)
    ensures fresh(lista) && lista.Valid() && lista.Contents == arreglo[..]
  {
    lista := new ListaDobleCircular<ResultadoSimilitud>();
    for i := 0 to arreglo.Length
      invariant fresh(lista) && lista.Valid()
      invariant lista.Contents == arreglo[..i]
    {
      lista.Insertar(arreglo[i]);
    }
    assert arreglo[..arreglo.Length] == arreglo[..];
  }

  /** Nothing before position `m` is smaller than anything from `m` on. */
  ghost predicate CotaPrefijo(s: seq<ResultadoSimilitud>, m: int)
  {
    forall k, l :: 0 <= k < m <= l < |s| ==> Clave(s[k]) >= Clave(s[l])
  }

  /** Descending from position `m` on. */
  ghost predicate DescendenteDesde(s: seq<ResultadoSimilitud>, m: int)
  {
    forall k, l :: m <= k < l < |s| && 0 <= k ==> Clave(s[k]) >= Clave(s[l])
  }

  /** The in-place bubble sort of `OrdenarPorSimilitud`. */
  method OrdenarBurbuja(a: array<ResultadoSimilitud>)
    modifies a
    ensures multiset(a[..]) == multiset(old(a[..]))
    ensures SinNaN(old(a[..])) ==> Descendente(a[..])
  {
    var n := a.Length;
    ghost var numeros := SinNaN(a[..]);
    if n == 0 {
      return;
    }
    for i := 0 to n - 1
      invariant multiset(a[..]) == multiset(old(a[..]))
      invariant numeros ==> SinNaN(a[..]) && CotaPrefijo(a[..], n - i) && DescendenteDesde(a[..], n - i)
    {
      Pasada(a, n - i);
    }
  }

  /** One pass of the bubble sort over `a[..limite]`: neighbours are swapped
      when the left one is strictly less similar, which carries the least
      similar of the prefix to position `limite - 1`. */
  method Pasada(a: array<ResultadoSimilitud>, limite: int)
    requires 2 <= limite <= a.Length
    modifies a
    ensures multiset(a[..]) == multiset(old(a[..]))
    ensures a[limite..] == old(a[limite..])
    ensures SinNaN(old(a[..])) ==> SinNaN(a[..]) && MinimoEn(a[..], limite - 1)
    ensures SinNaN(old(a[..])) && CotaPrefijo(old(a[..]), limite) ==> CotaPrefijo(a[..], limite)
  {
    ghost var inicial := a[..];
    ghost var numeros := SinNaN(a[..]);
    ghost var cota := CotaPrefijo(a[..], limite);
    for j := 0 to limite - 1
      invariant EstadoPasada(a[..], inicial, j, limite, numeros, cota)
    {
      ghost var antes := a[..];
      if Menor(a[j].similitud, a[j + 1].similitud) {
        a[j], a[j + 1] := a[j + 1], a[j];
      }
      assert a[..] == PasoBurbuja(antes, j);
      PasoBurbujaConserva(antes, inicial, j, limite, numeros, cota);
    }
  }

  /** The outcome of comparing positions `j` and `j + 1`. */
  function PasoBurbuja(s: seq<ResultadoSimilitud>, j: nat): seq<ResultadoSimilitud>
    requires j + 1 < |s|
  {
    if Menor(s[j].similitud, s[j + 1].similitud) then Intercambio(s, j) else s
  }

  /** What a pass keeps true after comparing up to position `j`. */
  ghost predicate EstadoPasada(s: seq<ResultadoSimilitud>, inicial: seq<ResultadoSimilitud>, j: int,
                               limite: int, numeros: bool, cota: bool)
  {
    && 0 <= j < limite <= |s|
    && multiset(s) == multiset(inicial)
    && |s| == |inicial| && s[limite..] == inicial[limite..]
    && (numeros ==> SinNaN(s) && MinimoEn(s, j))
    && (numeros && cota ==> CotaPrefijo(s, limite))
  }

  lemma PasoBurbujaConserva(s: seq<ResultadoSimilitud>, inicial: seq<ResultadoSimilitud>, j: nat,
                            limite: int, numeros: bool, cota: bool)
    requires j + 1 < limite
    requires EstadoPasada(s, inicial, j, limite, numeros, cota)
    ensures EstadoPasada(PasoBurbuja(s, j), inicial, j + 1, limite, numeros, cota)
  {
    if Menor(s[j].similitud, s[j + 1].similitud) {
      IntercambioConserva(s, j, limite);
    }
  }

  /** `s` with positions `j` and `j + 1` exchanged. */
  function Intercambio(s: seq<ResultadoSimilitud>, j: nat): (t: seq<ResultadoSimilitud>)
    requires j + 1 < |s|
  {
    s[j := s[j + 1]][j + 1 := s[j]]
  }

  /** `s[j]` is the least similar of `s[..j + 1]`. */
  ghost predicate MinimoEn(s: seq<ResultadoSimilitud>, j: int)
    requires 0 <= j < |s|
  {
    forall k :: 0 <= k < j ==> Clave(s[k]) >= Clave(s[j])
  }

  /** Exchanging two neighbours keeps the elements. */
  lemma IntercambioPermuta(s: seq<ResultadoSimilitud>, j: nat)
    requires j + 1 < |s|
    ensures multiset(Intercambio(s, j)) == multiset(s)
  {
    var t := Intercambio(s, j);
    assert t == s[..j] + [s[j + 1], s[j]] + s[j + 2..];
    assert s == s[..j] + [s[j], s[j + 1]] + s[j + 2..];
  }

  /** Exchanging two neighbours inside the prefix keeps the elements, the
      suffix, the absence of NaN and the prefix bound; done when the left
      one is smaller, it moves the running minimum one step right. */
  lemma IntercambioConserva(s: seq<ResultadoSimilitud>, j: nat, limite: int)
    requires j + 1 < limite <= |s|
    ensures multiset(Intercambio(s, j)) == multiset(s)
    ensures Intercambio(s, j)[limite..] == s[limite..]
    ensures SinNaN(s) ==> SinNaN(Intercambio(s, j))
    ensures CotaPrefijo(s, limite) ==> CotaPrefijo(Intercambio(s, j), limite)
    ensures DescendenteDesde(s, limite) ==> DescendenteDesde(Intercambio(s, j), limite)
    ensures SinNaN(s) && MinimoEn(s, j) && Clave(s[j]) < Clave(s[j + 1]) ==> MinimoEn(Intercambio(s, j), j + 1)
  {
    IntercambioPermuta(s, j);
    var t := Intercambio(s, j);
    assert t[limite..] == s[limite..];
  }
}
