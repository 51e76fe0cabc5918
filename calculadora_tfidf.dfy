/** The tf-idf calculator of the array-based variant: it reads the
    dictionary-backed inverted index and turns a document, or a query,
    into a vector with one weight per vocabulary term, in the order of the
    term list. `Math.Log10((double)n / df)`, IEEE division included, is the
    parameter `logCociente(n, df)`; nothing about it is assumed. */
module TfIdf {
  import opened Comun
  import opened Listas
  import opened Calculos
  import opened Indices

  /** The frequency of the first posting for `docId`, or 0 without one. */
  function TfDe(ps: seq<PostingTf>, docId: int): int
  {
    var i := PosicionDoc(ps, docId);
    if i == -1 then 0 else ps[i].tf
  }

  /** The frequency the calculator reads for `termino` in `docId`: 0 when
      the index does not hold the term (C# `null` from `BuscarTermino`). */
  function TfEn(m: map<string, EntradaTermino>, termino: string, docId: int): int
  {
    if termino in m then TfDe(m[termino].postings, docId) else 0
  }

  /** The loop over a term's postings that stops at the first one for
      `docId`. */
  method TfEnPostings(ps: seq<PostingTf>, docId: int) returns (tf: int)
    ensures tf == TfDe(ps, docId)
  {
    tf := 0;
    var j := 0;
    while j < |ps|
      invariant 0 <= j <= |ps|
      invariant forall k :: 0 <= k < j ==> ps[k].docId != docId
      decreases |ps| - j
    {
      if ps[j].docId == docId {
        tf := ps[j].tf;
        break;
      }
      j := j + 1;
    }
  }

  /** The loop counting how often `termino` appears in the query. */
  method ContarEnConsulta(terminosConsulta: array<string>, termino: string) returns (tf: int)
    ensures tf == Ocurrencias(terminosConsulta[..], termino)
  {
    tf := 0;
    var j := 0;
    while j < terminosConsulta.Length
      invariant 0 <= j <= terminosConsulta.Length
      invariant tf == Ocurrencias(terminosConsulta[..j], termino)
      decreases terminosConsulta.Length - j
    {
      assert terminosConsulta[..j + 1][..j] == terminosConsulta[..j];
      if terminosConsulta[j] == termino {
        tf := tf + 1;
      }
      j := j + 1;
    }
    assert terminosConsulta[..j] == terminosConsulta[..];
  }

  class CalculadoraTfIdf {
    const indice: InvertedIndex
    const totalDocumentos: int

    constructor (indice: InvertedIndex, totalDocumentos: int)
      ensures this.indice == indice && this.totalDocumentos == totalDocumentos
    {
      this.indice := indice;
      this.totalDocumentos := totalDocumentos;
    }

    /** The idf of `termino`; a term the index does not hold gets 0. */
    function CalcularIdf(termino: string, logCociente: (int, int) -> real): (idf: real)
      reads indice
      ensures termino !in indice.index ==> idf == 0.0
    {
      if termino in indice.index then logCociente(totalDocumentos, indice.index[termino].df) else 0.0
    }

    /** The weight of `termino` in document `docId`. */
    function PesoDocumento(termino: string, docId: int, logCociente: (int, int) -> real): real
      reads indice
    {
      Por(TfEn(indice.index, termino, docId) as real, CalcularIdf(termino, logCociente))
    }

    /** The document vector over the terms `ts`: one weight per term, in order. */
    function PesosDocumento(ts: seq<string>, docId: int, logCociente: (int, int) -> real): (r: seq<real>)
      reads indice
      ensures |r| == |ts|
      ensures forall i :: 0 <= i < |ts| ==> r[i] == PesoDocumento(ts[i], docId, logCociente)
      decreases |ts|
    {
      if ts == [] then []
      else PesosDocumento(ts[..|ts| - 1], docId, logCociente) + [PesoDocumento(ts[|ts| - 1], docId, logCociente)]
    }

    /** The weight of `termino` in the query `consulta`. */
    function PesoConsulta(consulta: seq<string>, termino: string, logCociente: (int, int) -> real): real
      reads indice
    {
      Por(Ocurrencias(consulta, termino) as real, CalcularIdf(termino, logCociente))
    }

    /** The query vector over the terms `ts`: one weight per term, in order. */
    function PesosConsulta(consulta: seq<string>, ts: seq<string>, logCociente: (int, int) -> real): (r: seq<real>)
      reads indice
      ensures |r| == |ts|
      ensures forall i :: 0 <= i < |ts| ==> r[i] == PesoConsulta(consulta, ts[i], logCociente)
      decreases |ts|
    {
      if ts == [] then []
      else PesosConsulta(consulta, ts[..|ts| - 1], logCociente) + [PesoConsulta(consulta, ts[|ts| - 1], logCociente)]
    }

    /** The frequency lookup of one vocabulary term. */
    method TfDocumento(termino: string, docId: int) returns (tf: int)
      ensures tf == TfEn(indice.index, termino, docId)
    {
      tf := 0;
      if termino in indice.index {
        tf := TfEnPostings(indice.index[termino].postings, docId);
      }
    }

    /** The vector of document `docId` over the term list. */
    method CrearVectorDocumento(docId: int, todosLosTerminos: ListaDobleCircular<string>, logCociente: (int, int) -> real)
      returns (vector: Vector)
      requires todosLosTerminos.Valid()
      ensures fresh(vector.elementos)
      ensures vector.elementos[..] == PesosDocumento(todosLosTerminos.Contents, docId, logCociente)
    {
      var cantidadTerminos := todosLosTerminos.Count();
      vector := new Vector(cantidadTerminos);
      var posicion := 0;
      var iterador := todosLosTerminos.ObtenerIterator();
      while iterador.TieneSiguiente()
        invariant fresh(iterador) && iterador.Valid() && iterador.lista == todosLosTerminos
        invariant iterador.Elementos == todosLosTerminos.Contents && posicion == iterador.Recorridos
        invariant fresh(vector.elementos) && vector.elementos.Length == |todosLosTerminos.Contents|
        invariant vector.elementos[..posicion] == PesosDocumento(todosLosTerminos.Contents[..posicion], docId, logCociente)
        decreases |iterador.Elementos| - iterador.Recorridos
      {
        PesoDocumentoSiguiente(iterador, vector, posicion, docId, logCociente);
        posicion := posicion + 1;
      }
      assert todosLosTerminos.Contents[..posicion] == todosLosTerminos.Contents;
    }

    /** The traversal callback of `CrearVectorDocumento` on the next term. */
    method PesoDocumentoSiguiente(iterador: Iterator<string>, vector: Vector, posicion: nat, docId: int,
                                  logCociente: (int, int) -> real)
      requires iterador.Valid() && posicion == iterador.Recorridos < |iterador.Elementos| == vector.elementos.Length
      requires vector.elementos[..posicion] == PesosDocumento(iterador.Elementos[..posicion], docId, logCociente)
      modifies iterador, vector.elementos
      ensures iterador.Valid() && iterador.Elementos == old(iterador.Elementos) && iterador.Recorridos == posicion + 1
      ensures vector.elementos[..posicion + 1] == PesosDocumento(iterador.Elementos[..posicion + 1], docId, logCociente)
    {
      var siguiente := iterador.Siguiente();
      var termino := siguiente.value;
      var tf := TfDocumento(termino, docId);
      var idf := CalcularIdf(termino, logCociente);
      vector.Establecer(posicion, Por(tf as real, idf));
      PesosDocumentoPaso(iterador.Elementos, posicion, docId, logCociente);
      assert vector.elementos[..posicion + 1] == vector.elementos[..posicion] + [vector.elementos[posicion]];
    }

    /** The vector of a query over the term list. */
    method CrearVectorConsulta(terminosConsulta: array<string>, todosLosTerminos: ListaDobleCircular<string>,
                               logCociente: (int, int) -> real)
      returns (vector: Vector)
      requires todosLosTerminos.Valid()
      ensures fresh(vector.elementos)
      ensures vector.elementos[..] == PesosConsulta(terminosConsulta[..], todosLosTerminos.Contents, logCociente)
    {
      var cantidadTerminos := todosLosTerminos.Count();
      vector := new Vector(cantidadTerminos);
      var posicion := 0;
      var iterador := todosLosTerminos.ObtenerIterator();
      while iterador.TieneSiguiente()
        invariant fresh(iterador) && iterador.Valid() && iterador.lista == todosLosTerminos
        invariant iterador.Elementos == todosLosTerminos.Contents && posicion == iterador.Recorridos
        invariant fresh(vector.elementos) && vector.elementos.Length == |todosLosTerminos.Contents|
        invariant vector.elementos[..posicion] == PesosConsulta(terminosConsulta[..], todosLosTerminos.Contents[..posicion], logCociente)
        decreases |iterador.Elementos| - iterador.Recorridos
      {
        PesoConsultaSiguiente(terminosConsulta, iterador, vector, posicion, logCociente);
        posicion := posicion + 1;
      }
      assert todosLosTerminos.Contents[..posicion] == todosLosTerminos.Contents;
    }

    /** The traversal callback of `CrearVectorConsulta` on the next term. */
    method PesoConsultaSiguiente(terminosConsulta: array<string>, iterador: Iterator<string>, vector: Vector,
                                 posicion: nat, logCociente: (int, int) -> real)
      requires iterador.Valid() && posicion == iterador.Recorridos < |iterador.Elementos| == vector.elementos.Length
      requires vector.elementos[..posicion] == PesosConsulta(terminosConsulta[..], iterador.Elementos[..posicion], logCociente)
      modifies iterador, vector.elementos
      ensures iterador.Valid() && iterador.Elementos == old(iterador.Elementos) && iterador.Recorridos == posicion + 1
      ensures vector.elementos[..posicion + 1] == PesosConsulta(terminosConsulta[..], iterador.Elementos[..posicion + 1], logCociente)
    {
      var siguiente := iterador.Siguiente();
      var termino := siguiente.value;
      var tf := ContarEnConsulta(terminosConsulta, termino);
      var idf := CalcularIdf(termino, logCociente);
      vector.Establecer(posicion, Por(tf as real, idf));
      PesosConsultaPaso(terminosConsulta[..], iterador.Elementos, posicion, logCociente);
      assert vector.elementos[..posicion + 1] == vector.elementos[..posicion] + [vector.elementos[posicion]];
    }

    /** The first position of `termino` in the term list, or -1. */
    method BuscarPosicionTermino(termino: string, todosLosTerminos: ListaDobleCircular<string>) returns (posicion: int)
      requires todosLosTerminos.Valid()
      ensures posicion == Posicion(todosLosTerminos.Contents, termino)
    {
      posicion := PosicionEnLista(todosLosTerminos, termino);
    }

    /** The term at `posicion`, or `None` (C# `null`) out of range. */
    method ObtenerTerminoPorPosicion(posicion: int, todosLosTerminos: ListaDobleCircular<string>) returns (resultado: Option<string>)
      requires todosLosTerminos.Valid()
      ensures resultado == ElementoEn(todosLosTerminos.Contents, posicion)
    {
      resultado := ElementoEnLista(todosLosTerminos, posicion);
    }

    /** One more term extends the document vector by that term's weight. */
    lemma PesosDocumentoPaso(ts: seq<string>, i: nat, docId: int, logCociente: (int, int) -> real)
      requires i < |ts|
      ensures PesosDocumento(ts[..i + 1], docId, logCociente)
           == PesosDocumento(ts[..i], docId, logCociente) + [PesoDocumento(ts[i], docId, logCociente)]
    {
      assert ts[..i + 1][..i] == ts[..i];
    }

    /** One more term extends the query vector by that term's weight. */
    lemma PesosConsultaPaso(consulta: seq<string>, ts: seq<string>, i: nat, logCociente: (int, int) -> real)
      requires i < |ts|
      ensures PesosConsulta(consulta, ts[..i + 1], logCociente)
           == PesosConsulta(consulta, ts[..i], logCociente) + [PesoConsulta(consulta, ts[i], logCociente)]
    {
      assert ts[..i + 1][..i] == ts[..i];
    }

    /** `df` is never written by the inverted index, so every indexed term
        gets the same idf, `logCociente(totalDocumentos, 0)`. */
    lemma IdfIndexado(termino: string, logCociente: (int, int) -> real)
      requires indice.Valid() && termino in indice.index
      ensures CalcularIdf(termino, logCociente) == logCociente(totalDocumentos, 0)
    {
    }

    /** A document no posting mentions gets the zero vector, and so does a
        query that shares no term with the list. */
    lemma VectoresCero(ts: seq<string>, docId: int, consulta: seq<string>, logCociente: (int, int) -> real)
      ensures (forall t :: t in indice.index ==> PosicionDoc(indice.index[t].postings, docId) == -1) ==>
        PesosDocumento(ts, docId, logCociente) == Ceros(|ts|)
      ensures (forall k :: 0 <= k < |ts| ==> ts[k] !in consulta) ==>
        PesosConsulta(consulta, ts, logCociente) == Ceros(|ts|)
    {
      var n := |ts|;
      if forall t :: t in indice.index ==> PosicionDoc(indice.index[t].postings, docId) == -1 {
        var r := PesosDocumento(ts, docId, logCociente);
        forall k | 0 <= k < n
          ensures r[k] == Ceros(n)[k]
        {
          assert TfEn(indice.index, ts[k], docId) == 0;
        }
      }
      if forall k :: 0 <= k < |ts| ==> ts[k] !in consulta {
        var r := PesosConsulta(consulta, ts, logCociente);
        forall k | 0 <= k < n
          ensures r[k] == Ceros(n)[k]
        {
          assert Ocurrencias(consulta, ts[k]) == 0;
        }
      }
    }
  }

  /** With one posting per document, the frequency read for `docId` is
      that of the document's posting, wherever it sits. */
  lemma TfUnico(ps: seq<PostingTf>, docId: int, k: nat)
    requires DocsDistintos(ps) && k < |ps| && ps[k].docId == docId
    ensures TfDe(ps, docId) == ps[k].tf
  {
    var i := PosicionDoc(ps, docId);
    assert i != -1;
    assert i == k;
  }

  /** The frequency the calculator reads counts `AddTerm` calls: after
      `AddTerm(termino, docId)` the pair (`termino`, `docId`) reads one
      more, and every other pair reads what it read before. */
  lemma TfTrasAgregar(m: map<string, EntradaTermino>, termino: string, docId: int, otro: string, otroDoc: int)
    ensures var m' := m[termino := ConOcurrencia(EntradaDe(m, termino), docId)];
      TfEn(m', otro, otroDoc) == TfEn(m, otro, otroDoc) + (if otro == termino && otroDoc == docId then 1 else 0)
  {
    if otro == termino {
      TfConOcurrencia(EntradaDe(m, termino).postings, docId, otroDoc);
    }
  }

  /** One more occurrence in `docId` raises the frequency read for `docId`
      by one and leaves that of every other document alone. */
  lemma TfConOcurrencia(ps: seq<PostingTf>, docId: int, otroDoc: int)
    ensures var r := ConOcurrencia(EntradaTermino("", ps, 0), docId).postings;
      TfDe(r, otroDoc) == TfDe(ps, otroDoc) + (if otroDoc == docId then 1 else 0)
  {
    var r := ConOcurrencia(EntradaTermino("", ps, 0), docId).postings;
    var i := PosicionDoc(ps, docId);
    var j := PosicionDoc(ps, otroDoc);
    var j' := PosicionDoc(r, otroDoc);
    if i == -1 {
      assert r == ps + [PostingTf(docId, 1)];
      assert forall k :: 0 <= k < |ps| ==> r[k] == ps[k];
      if otroDoc == docId {
        assert r[|ps|].docId == docId;
        assert j' != -1 && j' >= |ps|;
      } else if j == -1 {
        assert j' == -1;
      } else {
        assert j' == j;
      }
    } else {
      assert forall k :: 0 <= k < |ps| ==> r[k].docId == ps[k].docId;
      if j == -1 {
        assert j' == -1;
      } else {
        assert j' == j;
      }
    }
  }
}
