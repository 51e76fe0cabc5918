/** The basic indexing strategy of the list-based variant: documents are
    ingested into a circular list of `TermInfo` (one per distinct term)
    and a circular list of documents, and a separate pass gives every term
    its idf and every posting its tf-idf weight. The strategy has no state
    of its own; the lists it works on are its parameters. */
module IndexBasica {
  import opened Comun
  import opened Listas
  import opened Postings
  import opened TermInfos
  import opened Documentos

  /* ---------- The strategy on values ---------- */

  /** The terms of a list of term states, in order. */
  function NombresDe(vs: seq<TermVista>): (ns: seq<string>)
    ensures |ns| == |vs|
    ensures forall i :: 0 <= i < |vs| ==> ns[i] == vs[i].termino
  {
    seq(|vs|, i requires 0 <= i < |vs| => vs[i].termino)
  }

  /** The posting `ProcesarDocumento` adds for `termino`: the document's
      id and the term's count in the document's tokens. */
  function PostingDe(id: string, tokens: seq<string>, termino: string): PostingValor
  {
    PostingValor(id, Ocurrencias(tokens, termino), 0.0)
  }

  /** One pass of the loop over a document's distinct terms: an empty term
      is skipped; otherwise the term's `TermInfo` (appended first when the
      list has none) receives the document's posting. */
  function PasoTermino(vs: seq<TermVista>, termino: string, id: string, tokens: seq<string>): seq<TermVista>
  {
    if termino == "" then vs
    else
      var k := Posicion(NombresDe(vs), termino);
      if k == -1 then vs + [AgregarPostingTerm(TermVista(termino, [], 0, 0.0), PostingDe(id, tokens, termino))]
      else vs[k := AgregarPostingTerm(vs[k], PostingDe(id, tokens, termino))]
  }

  /** The loop over the terms `ts`, in order. */
  function Ingerir(vs: seq<TermVista>, id: string, tokens: seq<string>, ts: seq<string>): seq<TermVista>
    decreases |ts|
  {
    if ts == [] then vs
    else PasoTermino(Ingerir(vs, id, tokens, ts[..|ts| - 1]), ts[|ts| - 1], id, tokens)
  }

  /** What `ProcesarDocumento` reads of a document. */
  datatype DocVista = DocVista(procesado: bool, id: string, tokens: seq<string>)

  /** `ProcesarDocumento` on the term list: nothing for an unprocessed
      document, otherwise its distinct terms in first-seen order. */
  function IngerirDocumento(vs: seq<TermVista>, d: DocVista): seq<TermVista>
  {
    if !d.procesado then vs else Ingerir(vs, d.id, d.tokens, Unicos(d.tokens))
  }

  /** `ProcesarDocumentos` on the term list: the documents one after another. */
  function IngerirDocumentos(vs: seq<TermVista>, ds: seq<DocVista>): seq<TermVista>
    decreases |ds|
  {
    if ds == [] then vs
    else IngerirDocumento(IngerirDocumentos(vs, ds[..|ds| - 1]), ds[|ds| - 1])
  }

  /** A term after `CalcularIdf` and `ActualizarTfIdfPostings`. */
  function Finalizado(v: TermVista, total: int): TermVista
  {
    var idf := IdfDe(v.frecuenciaDocumental, total);
    v.(idf := idf, postings := ActualizarVista(v.postings, idf))
  }

  /** Every term finalised, in order. */
  function Finalizados(vs: seq<TermVista>, total: int): seq<TermVista>
  {
    seq(|vs|, i requires 0 <= i < |vs| => Finalizado(vs[i], total))
  }

  /** `CalcularTfIdf` on the term list: no change for an empty list or a
      corpus of no documents, every term finalised otherwise. */
  function CalcularTfIdfVista(vs: seq<TermVista>, total: int): seq<TermVista>
  {
    if vs == [] || total <= 0 then vs else Finalizados(vs, total)
  }

  /* ---------- Properties of the strategy on values ---------- */

  /** One pass keeps the terms distinct, keeps every earlier term at its
      position, and holds exactly the earlier terms plus the new one. */
  lemma PasoTerminoNombres(vs: seq<TermVista>, termino: string, id: string, tokens: seq<string>)
    requires SinRepetidos(NombresDe(vs))
    ensures var r := NombresDe(PasoTermino(vs, termino, id, tokens));
      && SinRepetidos(r)
      && |vs| <= |r|
      && r[..|vs|] == NombresDe(vs)
      && forall t :: t in r <==> t in NombresDe(vs) || (t == termino && t != "")
  {
    var ns := NombresDe(vs);
    if termino != "" {
      var k := Posicion(ns, termino);
      var p := PostingDe(id, tokens, termino);
      if k == -1 {
        var r := NombresDe(vs + [AgregarPostingTerm(TermVista(termino, [], 0, 0.0), p)]);
        assert r == ns + [termino];
      } else {
        var r := NombresDe(vs[k := AgregarPostingTerm(vs[k], p)]);
        assert r == ns;
      }
    }
  }

  /** After one pass, the term's `TermInfo` (found or new) holds the
      document's posting: its count of the term when the document was new
      to the term, one more occurrence on the existing posting otherwise. */
  lemma PasoTerminoPosting(vs: seq<TermVista>, termino: string, id: string, tokens: seq<string>)
    requires termino != ""
    ensures var r := PasoTermino(vs, termino, id, tokens);
      var antes := if termino in NombresDe(vs) then vs[Posicion(NombresDe(vs), termino)].postings else [];
      var j := Posicion(NombresDe(r), termino);
      && 0 <= j < |r|
      && r[j].postings == AgregarPostingVista(antes, PostingDe(id, tokens, termino))
      && (!TieneId(antes, id) ==> r[j].postings == antes + [PostingValor(id, Ocurrencias(tokens, termino), 0.0)])
  {
    var ns := NombresDe(vs);
    var k := Posicion(ns, termino);
    var p := PostingDe(id, tokens, termino);
    var r := PasoTermino(vs, termino, id, tokens);
    if k == -1 {
      assert NombresDe(r) == ns + [termino];
    } else {
      assert NombresDe(r) == ns;
    }
  }

  /** Ingestion keeps the term list free of repeated terms, keeps every
      earlier term at its position, and adds exactly the non-empty terms
      ingested. */
  lemma {:induction false} IngerirNombres(vs: seq<TermVista>, id: string, tokens: seq<string>, ts: seq<string>)
    requires SinRepetidos(NombresDe(vs))
    ensures var r := NombresDe(Ingerir(vs, id, tokens, ts));
      && SinRepetidos(r)
      && |vs| <= |r|
      && r[..|vs|] == NombresDe(vs)
      && forall t :: t in r <==> t in NombresDe(vs) || (t in ts && t != "")
    decreases |ts|
  {
    if ts != [] {
      var previas := ts[..|ts| - 1];
      var x := ts[|ts| - 1];
      IngerirNombres(vs, id, tokens, previas);
      var medio := Ingerir(vs, id, tokens, previas);
      PasoTerminoNombres(medio, x, id, tokens);
      assert ts == previas + [x];
      var r := NombresDe(PasoTermino(medio, x, id, tokens));
      assert r[..|vs|] == r[..|medio|][..|vs|];
    }
  }

  /** Finalising is idempotent: a second `CalcularTfIdf` with the same
      corpus size changes nothing. */
  lemma CalcularTfIdfIdempotente(vs: seq<TermVista>, total: int)
    ensures CalcularTfIdfVista(CalcularTfIdfVista(vs, total), total) == CalcularTfIdfVista(vs, total)
  {
    if vs != [] && total > 0 {
      var r := Finalizados(vs, total);
      forall i | 0 <= i < |vs|
        ensures Finalizado(r[i], total) == r[i]
      {
        ActualizarIdempotente(vs[i].postings, IdfDe(vs[i].frecuenciaDocumental, total));
      }
    }
  }

  /* ---------- The term list in the heap ---------- */

  /** Every term is valid and owns a part of `repr`, and no two terms
      share an object. */
  ghost predicate TerminosBien(ts: seq<TermInfo>, repr: set<object>)
    reads ts, repr
  {
    && (forall i :: 0 <= i < |ts| ==> ts[i].Repr <= repr && ts[i].Valid())
    && (forall i, j :: 0 <= i < j < |ts| ==> ts[i].Repr !! ts[j].Repr)
  }

  /** The states of the terms of `ts`, in order. */
  ghost function Vistas(ts: seq<TermInfo>, repr: set<object>): (vs: seq<TermVista>)
    reads ts, repr
    requires TerminosBien(ts, repr)
    ensures |vs| == |ts|
    ensures forall i :: 0 <= i < |ts| ==> vs[i] == ts[i].Vista()
  {
    seq(|ts|, i requires 0 <= i < |ts| && ts[i].Repr <= repr && ts[i].Valid() reads ts, repr => ts[i].Vista())
  }

  /** The term strings of `ts`, in order. */
  ghost function Nombres(ts: seq<TermInfo>): (ns: seq<string>)
    reads ts
    ensures |ns| == |ts|
    ensures forall i :: 0 <= i < |ts| ==> ns[i] == ts[i].termino
  {
    seq(|ts|, i requires 0 <= i < |ts| reads ts => ts[i].termino)
  }

  /** The ids of the documents of `ds`, in order. */
  ghost function Ids(ds: seq<Documento>): (r: seq<string>)
    reads ds
    ensures |r| == |ds|
    ensures forall i :: 0 <= i < |ds| ==> r[i] == ds[i].id
  {
    seq(|ds|, i requires 0 <= i < |ds| reads ds => ds[i].id)
  }

  /** What `ProcesarDocumento` reads of `d`. */
  ghost function VistaDoc(d: Documento): DocVista
    reads d
  {
    DocVista(d.procesado, d.id, d.tokens)
  }

  /** The documents' states, in order. */
  ghost function VistasDocs(ds: seq<Documento>): (r: seq<DocVista>)
    reads ds
    ensures |r| == |ds|
    ensures forall i :: 0 <= i < |ds| ==> r[i] == VistaDoc(ds[i])
  {
    seq(|ds|, i requires 0 <= i < |ds| reads ds => VistaDoc(ds[i]))
  }

  /** The first `TermInfo` whose term is `termino`, or `null`. */
  method BuscarTermino(terminos: ListaDobleCircular<TermInfo>, termino: string) returns (r: TermInfo?)
    requires terminos.Valid()
    ensures r == null <==> termino !in Nombres(terminos.Contents)
    ensures r != null ==> r == terminos.Contents[Posicion(Nombres(terminos.Contents), termino)]
  {
    if terminos.EstaVacia() {
      return null;
    }
    ghost var ns := Nombres(terminos.Contents);
    var iterador := terminos.ObtenerIterator();
    while iterador.TieneSiguiente()
      invariant fresh(iterador) && iterador.Valid() && iterador.lista == terminos
      invariant iterador.Elementos == terminos.Contents && ns == Nombres(terminos.Contents)
      invariant termino !in ns[..iterador.Recorridos]
      decreases |iterador.Elementos| - iterador.Recorridos
    {
      var terminoActual := TerminoSiguiente(iterador, termino, ns);
      if terminoActual.termino == termino {
        return terminoActual;
      }
    }
    assert ns[..iterador.Recorridos] == ns;
    return null;
  }

  /** One step of `BuscarTermino`: the next term, and what comparing it
      tells about the first position of `termino`. */
  method TerminoSiguiente(iterador: Iterator<TermInfo>, termino: string, ghost ns: seq<string>) returns (actual: TermInfo)
    requires iterador.Valid() && iterador.Recorridos < |iterador.Elementos|
    requires ns == Nombres(iterador.Elementos) && termino !in ns[..iterador.Recorridos]
    modifies iterador
    ensures iterador.Valid() && iterador.Elementos == old(iterador.Elementos) && iterador.Recorridos == old(iterador.Recorridos) + 1
    ensures actual == iterador.Elementos[old(iterador.Recorridos)]
    ensures actual.termino != termino ==> termino !in ns[..iterador.Recorridos]
    ensures actual.termino == termino ==> termino in ns && actual == iterador.Elementos[Posicion(ns, termino)]
  {
    ghost var k := iterador.Recorridos;
    var siguiente := iterador.Siguiente();
    actual := siguiente.value;
    if actual.termino == termino {
      Comun.PrimerIndiceUnico(ns, termino, k);
    } else {
      assert ns[..k + 1] == ns[..k] + [ns[k]];
    }
  }

  /** Whether a document with the same id (`esIgual`) is in the list. */
  method ExisteDocumento(documentos: ListaDobleCircular<Documento>, documento: Documento) returns (existe: bool)
    requires documentos.Valid()
    ensures existe <==> documento.id in Ids(documentos.Contents)
  {
    if documentos.EstaVacia() {
      return false;
    }
    ghost var ids := Ids(documentos.Contents);
    var iterador := documentos.ObtenerIterator();
    while iterador.TieneSiguiente()
      invariant fresh(iterador) && iterador.Valid() && iterador.lista == documentos
      invariant iterador.Elementos == documentos.Contents
      invariant documento.id !in ids[..iterador.Recorridos]
      decreases |iterador.Elementos| - iterador.Recorridos
    {
      var docActual := DocumentoSiguiente(iterador, ids);
      if docActual.EsIgual(documento) {
        return true;
      }
    }
    assert ids[..iterador.Recorridos] == ids;
    return false;
  }

  /** One step of `ExisteDocumento`: the next document; the ids met so far
      grow by its id. */
  method DocumentoSiguiente(iterador: Iterator<Documento>, ghost ids: seq<string>) returns (actual: Documento)
    requires iterador.Valid() && iterador.Recorridos < |iterador.Elementos| && ids == Ids(iterador.Elementos)
    modifies iterador
    ensures iterador.Valid() && iterador.Elementos == old(iterador.Elementos) && iterador.Recorridos == old(iterador.Recorridos) + 1
    ensures actual == iterador.Elementos[old(iterador.Recorridos)]
    ensures ids[..iterador.Recorridos] == ids[..old(iterador.Recorridos)] + [actual.id]
  {
    ghost var k := iterador.Recorridos;
    var siguiente := iterador.Siguiente();
    actual := siguiente.value;
    assert actual.id == ids[k];
    assert ids[..k + 1] == ids[..k] + [ids[k]];
  }

  /* ---------- Ingestion in the heap ---------- */

  /** The label `ObtenerNombreEstrategia` returns. */
  const NombreEstrategia: string := "Estrategia de Indexación Básica TF-IDF"

  /** The terms' state read through their strings agrees with the list's
      terms. */
  lemma NombresDeVistas(ts: seq<TermInfo>, repr: set<object>)
    requires TerminosBien(ts, repr)
    ensures NombresDe(Vistas(ts, repr)) == Nombres(ts)
  {
  }

  /** Terms none of whose objects changed keep their validity and state. */
  twostate lemma TerminosIntactos(new ts: seq<TermInfo>, repr: set<object>)
    requires old(allocated(ts)) && old(TerminosBien(ts, repr)) && unchanged(repr)
    ensures TerminosBien(ts, repr) && Vistas(ts, repr) == old(Vistas(ts, repr))
  {
    forall i | 0 <= i < |ts|
      ensures ts[i].Valid() && ts[i].Vista() == old(ts[i].Vista())
    {
      assert unchanged(ts[i].Repr);
    }
  }

  /** When only the objects of the `k`-th term changed, and what that term
      owns now is what it owned or new objects, the terms stay valid and
      apart, and only the `k`-th state may differ. */
  twostate lemma TerminosSalvoUno(new ts: seq<TermInfo>, k: int, new nuevos: set<object>, new repr: set<object>)
    requires old(allocated(ts)) && old(allocated(repr)) && old(TerminosBien(ts, repr)) && 0 <= k < |ts|
    requires unchanged(repr - old(ts[k].Repr)) && fresh(nuevos)
    requires ts[k].Valid() && ts[k].Repr <= old(ts[k].Repr) + nuevos
    ensures TerminosBien(ts, repr + nuevos)
    ensures Vistas(ts, repr + nuevos) == old(Vistas(ts, repr))[k := ts[k].Vista()]
  {
    forall i | 0 <= i < |ts| && i != k
      ensures ts[i].Valid() && ts[i].Vista() == old(ts[i].Vista()) && ts[i].Repr == old(ts[i].Repr)
    {
      assert old(ts[i].Repr !! ts[k].Repr);
      assert unchanged(old(ts[i].Repr));
    }
  }

  /** A valid term owning objects apart from `repr` can join the list. */
  lemma TerminosConUno(ts: seq<TermInfo>, repr: set<object>, t: TermInfo)
    requires TerminosBien(ts, repr) && t.Valid() && t.Repr !! repr
    ensures TerminosBien(ts + [t], repr + t.Repr)
    ensures Vistas(ts + [t], repr + t.Repr) == Vistas(ts, repr) + [t.Vista()]
  {
  }

  /** A new posting for document `id` with `frecuencia` occurrences,
      given to `t` with `AgregarPosting`. */
  method NuevoPostingEn(t: TermInfo, id: string, frecuencia: int)
    requires t.Valid()
    modifies t.Repr
    ensures t.Valid() && old(t.Repr) <= t.Repr && fresh(t.Repr - old(t.Repr))
    ensures t.Vista() == AgregarPostingTerm(old(t.Vista()), PostingValor(id, frecuencia, 0.0))
  {
    var nuevoPosting := new Posting(id, frecuencia);
    t.AgregarPosting(nuevoPosting);
  }

  /** The new-term branch of a pass of the loop of `ProcesarDocumento`:
      a fresh `TermInfo` for `termino` goes to the end of the list and takes
      the document's posting. */
  method CrearTermino(terminos: ListaDobleCircular<TermInfo>, termino: string, id: string, frecuencia: int, ghost repr: set<object>)
    returns (ghost repr': set<object>)
    requires terminos.Valid() && terminos !in repr && TerminosBien(terminos.Contents, repr)
    modifies terminos
    ensures terminos.Valid() && terminos !in repr' && TerminosBien(terminos.Contents, repr')
    ensures repr <= repr' && fresh(repr' - repr)
    ensures Vistas(terminos.Contents, repr') ==
      old(Vistas(terminos.Contents, repr)) + [AgregarPostingTerm(TermVista(termino, [], 0, 0.0), PostingValor(id, frecuencia, 0.0))]
  {
    ghost var antes := Vistas(terminos.Contents, repr);
    var t;
    t, repr' := InsertarTermino(terminos, termino, repr);
    ghost var ts := terminos.Contents;
    ghost var medio := Vistas(ts, repr');
    repr' := AgregarEn(ts, t, |ts| - 1, id, frecuencia, repr');
    assert medio == antes + [TermVista(termino, [], 0, 0.0)];
  }

  /** The first half of `CrearTermino`: a fresh, empty `TermInfo` for
      `termino` goes to the end of the list. */
  method InsertarTermino(terminos: ListaDobleCircular<TermInfo>, termino: string, ghost repr: set<object>)
    returns (t: TermInfo, ghost repr': set<object>)
    requires terminos.Valid() && terminos !in repr && TerminosBien(terminos.Contents, repr)
    modifies terminos
    ensures terminos.Valid() && terminos !in repr' && TerminosBien(terminos.Contents, repr')
    ensures repr <= repr' && fresh(repr' - repr) && fresh(t.Repr)
    ensures terminos.Contents == old(terminos.Contents) + [t]
    ensures Vistas(terminos.Contents, repr') == old(Vistas(terminos.Contents, repr)) + [TermVista(termino, [], 0, 0.0)]
  {
    ghost var ts := terminos.Contents;
    t := new TermInfo(termino);
    terminos.Insertar(t);
    repr' := repr + t.Repr;
    TerminosIntactos(ts, repr);
    TerminosConUno(ts, repr, t);
  }

  /** The found-term branch of a pass of the loop of `ProcesarDocumento`:
      the `k`-th term `t` of `ts` takes the document's posting, every
      other term keeps its state. */
  method AgregarEn(ghost ts: seq<TermInfo>, t: TermInfo, ghost k: int, id: string, frecuencia: int, ghost repr: set<object>)
    returns (ghost repr': set<object>)
    requires TerminosBien(ts, repr) && 0 <= k < |ts| && t == ts[k]
    modifies t.Repr
    ensures TerminosBien(ts, repr') && repr <= repr' && fresh(repr' - repr)
    ensures Vistas(ts, repr') == old(Vistas(ts, repr))[k := AgregarPostingTerm(old(t.Vista()), PostingValor(id, frecuencia, 0.0))]
  {
    ghost var nuevos := t.Repr;
    NuevoPostingEn(t, id, frecuencia);
    nuevos := t.Repr - nuevos;
    repr' := repr + nuevos;
    TerminosSalvoUno(ts, k, nuevos, repr);
  }

  /** One pass of the loop of `ProcesarDocumento` for a non-empty term:
      find or create its `TermInfo`, then add the document's posting. */
  method IngerirTermino(terminos: ListaDobleCircular<TermInfo>, documento: Documento, termino: string, ghost repr: set<object>)
    returns (ghost repr': set<object>)
    requires terminos.Valid() && terminos !in repr && documento !in repr && TerminosBien(terminos.Contents, repr)
    requires termino != ""
    modifies terminos, repr
    ensures terminos.Valid() && terminos !in repr' && TerminosBien(terminos.Contents, repr')
    ensures repr <= repr' && fresh(repr' - repr)
    ensures Vistas(terminos.Contents, repr') == PasoTermino(old(Vistas(terminos.Contents, repr)), termino, documento.id, documento.tokens)
  {
    ghost var id, tokens := documento.id, documento.tokens;
    var existente := BuscarTermino(terminos, termino);
    var frecuencia := documento.ContarFrecuenciaTermino(termino);
    ghost var vs := Vistas(terminos.Contents, repr);
    assert vs == old(Vistas(terminos.Contents, repr));
    NombresDeVistas(terminos.Contents, repr);
    ghost var p := PostingValor(id, frecuencia, 0.0);
    assert p == PostingDe(id, tokens, termino);
    if existente == null {
      repr' := CrearTermino(terminos, termino, documento.id, frecuencia, repr);
      assert PasoTermino(vs, termino, id, tokens) == vs + [AgregarPostingTerm(TermVista(termino, [], 0, 0.0), p)];
      assert Vistas(terminos.Contents, repr') == PasoTermino(vs, termino, id, tokens);
    } else {
      ghost var k := Posicion(NombresDe(vs), termino);
      assert existente.Vista() == vs[k];
      ghost var ts := terminos.Contents;
      repr' := AgregarEn(ts, existente, k, documento.id, frecuencia, repr);
      assert terminos.Contents == ts;
      assert PasoTermino(vs, termino, id, tokens) == vs[k := AgregarPostingTerm(vs[k], p)];
      assert Vistas(terminos.Contents, repr') == PasoTermino(vs, termino, id, tokens);
    }
    assert documento.id == id && documento.tokens == tokens;
  }

  /** The loop of `ProcesarDocumento` over the document's distinct terms,
      empty ones skipped. */
  method IngerirTerminos(terminosDocumento: array<string>, terminos: ListaDobleCircular<TermInfo>, documento: Documento, ghost repr: set<object>)
    returns (ghost repr': set<object>)
    requires terminos.Valid() && TerminosBien(terminos.Contents, repr)
    requires terminos !in repr && documento !in repr && terminosDocumento !in repr
    modifies terminos, repr
    ensures terminos.Valid() && terminos !in repr' && TerminosBien(terminos.Contents, repr')
    ensures repr <= repr' && fresh(repr' - repr)
    ensures Vistas(terminos.Contents, repr') ==
      Ingerir(old(Vistas(terminos.Contents, repr)), documento.id, documento.tokens, terminosDocumento[..])
  {
    repr' := repr;
    ghost var vs0 := Vistas(terminos.Contents, repr);
    for i := 0 to terminosDocumento.Length
      invariant terminos.Valid() && terminos !in repr' && TerminosBien(terminos.Contents, repr')
      invariant repr <= repr' && fresh(repr' - repr)
      invariant Vistas(terminos.Contents, repr') == Ingerir(vs0, documento.id, documento.tokens, terminosDocumento[..i])
    {
      var termino := terminosDocumento[i];
      assert terminosDocumento[..i + 1][..i] == terminosDocumento[..i];
      ghost var antes := Ingerir(vs0, documento.id, documento.tokens, terminosDocumento[..i]);
      assert Ingerir(vs0, documento.id, documento.tokens, terminosDocumento[..i + 1])
        == PasoTermino(antes, termino, documento.id, documento.tokens);
      if termino != "" {
        repr' := IngerirTermino(terminos, documento, termino, repr');
      }
    }
    assert terminosDocumento[..terminosDocumento.Length] == terminosDocumento[..];
  }

  /** `ProcesarDocumento`: a null or unprocessed document changes nothing;
      otherwise the document joins `documentos` unless a document with its
      id is already there, and each of its distinct terms is ingested. */
  method ProcesarDocumento(documento: Documento?, terminos: ListaDobleCircular<TermInfo>, documentos: ListaDobleCircular<Documento>, ghost repr: set<object>)
    returns (ghost repr': set<object>)
    requires terminos.Valid() && documentos.Valid() && TerminosBien(terminos.Contents, repr)
    requires terminos !in repr && documentos !in repr && documento !in repr
    modifies terminos, documentos, repr
    ensures terminos.Valid() && documentos.Valid() && terminos !in repr' && TerminosBien(terminos.Contents, repr')
    ensures repr <= repr' && fresh(repr' - repr)
    ensures documentos.Contents ==
      if documento == null || !old(documento.procesado) || old(documento.id) in old(Ids(documentos.Contents))
      then old(documentos.Contents)
      else old(documentos.Contents) + [documento]
    ensures Vistas(terminos.Contents, repr') ==
      if documento == null then old(Vistas(terminos.Contents, repr))
      else IngerirDocumento(old(Vistas(terminos.Contents, repr)), old(VistaDoc(documento)))
  {
    repr' := repr;
    if documento == null || !documento.procesado {
      return;
    }
    repr' := ProcesarProcesado(documento, terminos, documentos, repr);
  }

  /** `ProcesarDocumento` past its guard. */
  method ProcesarProcesado(documento: Documento, terminos: ListaDobleCircular<TermInfo>, documentos: ListaDobleCircular<Documento>, ghost repr: set<object>)
    returns (ghost repr': set<object>)
    requires terminos.Valid() && documentos.Valid() && TerminosBien(terminos.Contents, repr)
    requires terminos !in repr && documentos !in repr && documento !in repr
    modifies terminos, documentos, repr
    ensures terminos.Valid() && documentos.Valid() && terminos !in repr' && TerminosBien(terminos.Contents, repr')
    ensures repr <= repr' && fresh(repr' - repr)
    ensures documentos.Contents ==
      if documento.id in old(Ids(documentos.Contents)) then old(documentos.Contents) else old(documentos.Contents) + [documento]
    ensures Vistas(terminos.Contents, repr') ==
      Ingerir(old(Vistas(terminos.Contents, repr)), documento.id, documento.tokens, Unicos(documento.tokens))
  {
    RegistrarDocumento(documento, documentos);
    var terminosDocumento := documento.GetTerminosUnicos();
    TerminosIntactos(terminos.Contents, repr);
    repr' := IngerirTerminos(terminosDocumento, terminos, documento, repr);
  }

  /** The start of `ProcesarDocumento`: the document joins the list unless
      one with its id is already there. */
  method RegistrarDocumento(documento: Documento, documentos: ListaDobleCircular<Documento>)
    requires documentos.Valid()
    modifies documentos
    ensures documentos.Valid()
    ensures documentos.Contents ==
      if documento.id in old(Ids(documentos.Contents)) then old(documentos.Contents) else old(documentos.Contents) + [documento]
  {
    var existe := ExisteDocumento(documentos, documento);
    if !existe {
      documentos.Insertar(documento);
    }
  }

  /** One more document ingested. */
  lemma IngerirDocumentosPaso(vs: seq<TermVista>, ds: seq<DocVista>, k: int)
    requires 0 <= k < |ds|
    ensures IngerirDocumentos(vs, ds[..k + 1]) == IngerirDocumento(IngerirDocumentos(vs, ds[..k]), ds[k])
  {
    assert ds[..k + 1][..k] == ds[..k];
  }

  /** What holds between two steps of `ProcesarDocumentos`: the
      iterator, the term list and the temporary document list are well
      formed and lie outside the terms' footprint. */
  ghost predicate EnCurso(iterador: Iterator<Documento>, terminos: ListaDobleCircular<TermInfo>, documentosTemp: ListaDobleCircular<Documento>,
                          repr: set<object>)
    reads iterador, iterador.lista, terminos, terminos.Contents, documentosTemp, repr
  {
    && iterador.Valid() && terminos.Valid() && documentosTemp.Valid() && TerminosBien(terminos.Contents, repr)
    && documentosTemp != iterador.lista
    && terminos !in repr && documentosTemp !in repr && iterador !in repr && iterador.lista !in repr
  }

  /** The documents of `ds` from position `desde` on lie outside `repr`
      and are in the states `dvs` records. */
  ghost predicate Pendientes(ds: seq<Documento>, desde: nat, dvs: seq<DocVista>, repr: set<object>)
    reads ds
  {
    |ds| == |dvs| && forall k :: desde <= k < |ds| ==> ds[k] !in repr && VistaDoc(ds[k]) == dvs[k]
  }

  /** `ProcesarDocumentos`: every document of the list, in order, goes
      through `ProcesarDocumento` with a fresh temporary document list, so
      `documentos` itself is left as it was. */
  method ProcesarDocumentos(documentos: ListaDobleCircular<Documento>, terminos: ListaDobleCircular<TermInfo>, ghost repr: set<object>)
    returns (ghost repr': set<object>)
    requires documentos.Valid() && terminos.Valid() && TerminosBien(terminos.Contents, repr)
    requires terminos !in repr && documentos !in repr
    requires forall d :: d in documentos.Contents ==> d !in repr
    modifies terminos, repr
    ensures terminos.Valid() && TerminosBien(terminos.Contents, repr') && repr <= repr'
    ensures Vistas(terminos.Contents, repr') ==
      IngerirDocumentos(old(Vistas(terminos.Contents, repr)), old(VistasDocs(documentos.Contents)))
  {
    repr' := repr;
    if documentos.EstaVacia() {
      return;
    }
    ghost var vs0 := Vistas(terminos.Contents, repr);
    ghost var dvs := VistasDocs(documentos.Contents);
    var iterador, documentosTemp := Preparar(documentos, terminos, repr);
    while iterador.TieneSiguiente()
      invariant fresh(iterador) && fresh(documentosTemp)
      invariant iterador.Recorridos <= |iterador.Elementos| == |dvs|
      invariant EnCurso(iterador, terminos, documentosTemp, repr')
      invariant Pendientes(iterador.Elementos, iterador.Recorridos, dvs, repr')
      invariant repr <= repr' && forall o :: o in repr' ==> o in repr || !old(allocated(o))
      invariant Vistas(terminos.Contents, repr') == IngerirDocumentos(vs0, dvs[..iterador.Recorridos])
      decreases |iterador.Elementos| - iterador.Recorridos
    {
      repr' := ProcesarSiguiente(iterador, terminos, documentosTemp, repr', vs0, dvs);
    }
    assert iterador.Recorridos == |dvs|;
    assert dvs[..iterador.Recorridos] == dvs;
  }

  /** The iterator over `documentos` and the empty temporary list that
      `ProcesarDocumentos` starts from. */
  method Preparar(documentos: ListaDobleCircular<Documento>, terminos: ListaDobleCircular<TermInfo>, ghost repr: set<object>)
    returns (iterador: Iterator<Documento>, documentosTemp: ListaDobleCircular<Documento>)
    requires documentos.Valid() && terminos.Valid() && TerminosBien(terminos.Contents, repr)
    requires terminos !in repr && documentos !in repr
    requires forall d :: d in documentos.Contents ==> d !in repr
    ensures fresh(iterador) && fresh(documentosTemp)
    ensures EnCurso(iterador, terminos, documentosTemp, repr) && iterador.Recorridos == 0 && documentosTemp.Contents == []
    ensures Pendientes(iterador.Elementos, 0, VistasDocs(documentos.Contents), repr)
  {
    iterador := documentos.ObtenerIterator();
    documentosTemp := new ListaDobleCircular<Documento>();
  }

  /** One step of `ProcesarDocumentos`: the next document is taken from
      the iterator and processed. */
  method ProcesarSiguiente(iterador: Iterator<Documento>, terminos: ListaDobleCircular<TermInfo>, documentosTemp: ListaDobleCircular<Documento>,
                           ghost repr: set<object>, ghost vs0: seq<TermVista>, ghost dvs: seq<DocVista>)
    returns (ghost repr': set<object>)
    requires EnCurso(iterador, terminos, documentosTemp, repr) && iterador.Recorridos < |iterador.Elementos|
    requires Pendientes(iterador.Elementos, iterador.Recorridos, dvs, repr)
    requires Vistas(terminos.Contents, repr) == IngerirDocumentos(vs0, dvs[..iterador.Recorridos])
    modifies iterador, terminos, documentosTemp, repr
    ensures EnCurso(iterador, terminos, documentosTemp, repr')
    ensures Pendientes(iterador.Elementos, iterador.Recorridos, dvs, repr')
    ensures iterador.Recorridos == old(iterador.Recorridos) + 1 <= |iterador.Elementos| == |dvs|
    ensures repr <= repr' && forall o :: o in repr' ==> o in repr || !old(allocated(o))
    ensures Vistas(terminos.Contents, repr') == IngerirDocumentos(vs0, dvs[..iterador.Recorridos])
  {
    IngerirDocumentosPaso(vs0, dvs, iterador.Recorridos);
    ghost var k := iterador.Recorridos;
    var documento := TomarDocumento(iterador, terminos, documentosTemp, repr);
    repr' := IngerirPendiente(documento, iterador, terminos, documentosTemp, repr, iterador.Elementos, k, dvs);
  }

  /** The iterator step of `ProcesarSiguiente`; the terms are untouched. */
  method TomarDocumento(iterador: Iterator<Documento>, terminos: ListaDobleCircular<TermInfo>, documentosTemp: ListaDobleCircular<Documento>, ghost repr: set<object>)
    returns (documento: Documento)
    requires EnCurso(iterador, terminos, documentosTemp, repr) && iterador.Recorridos < |iterador.Elementos|
    modifies iterador
    ensures EnCurso(iterador, terminos, documentosTemp, repr)
    ensures iterador.Elementos == old(iterador.Elementos) && iterador.Recorridos == old(iterador.Recorridos) + 1
    ensures documento == iterador.Elementos[old(iterador.Recorridos)]
    ensures Vistas(terminos.Contents, repr) == old(Vistas(terminos.Contents, repr))
  {
    var siguiente := iterador.Siguiente();
    documento := siguiente.value;
    TerminosIntactos(terminos.Contents, repr);
  }

  /** The processing step of `ProcesarSiguiente`: the `k`-th pending
      document goes through `ProcesarDocumento`, and the later ones are
      still pending. */
  method IngerirPendiente(documento: Documento, iterador: Iterator<Documento>, terminos: ListaDobleCircular<TermInfo>, documentosTemp: ListaDobleCircular<Documento>, ghost repr: set<object>,
                          ghost ds: seq<Documento>, ghost k: nat, ghost dvs: seq<DocVista>)
    returns (ghost repr': set<object>)
    requires EnCurso(iterador, terminos, documentosTemp, repr) && Pendientes(ds, k, dvs, repr) && k < |ds| && documento == ds[k]
    modifies terminos, documentosTemp, repr
    ensures Pendientes(ds, k + 1, dvs, repr')
    ensures EnCurso(iterador, terminos, documentosTemp, repr')
    ensures iterador.Elementos == old(iterador.Elementos) && iterador.Recorridos == old(iterador.Recorridos)
    ensures repr <= repr' && fresh(repr' - repr)
    ensures Vistas(terminos.Contents, repr') == IngerirDocumento(old(Vistas(terminos.Contents, repr)), dvs[k])
  {
    repr' := ProcesarDocumento(documento, terminos, documentosTemp, repr);
  }

  /* ---------- Weighting in the heap ---------- */

  /** `CalcularTfIdf`: unless the list is empty or the corpus has no
      documents, every term, in list order, gets its idf and then its
      postings' tf-idf weights. The terms' objects change in place; none is
      created. */
  method CalcularTfIdf(terminos: ListaDobleCircular<TermInfo>, totalDocumentos: int, ghost repr: set<object>)
    requires terminos.Valid() && terminos !in repr && TerminosBien(terminos.Contents, repr)
    modifies repr
    ensures terminos.Valid() && TerminosBien(terminos.Contents, repr)
    ensures Vistas(terminos.Contents, repr) == CalcularTfIdfVista(old(Vistas(terminos.Contents, repr)), totalDocumentos)
  {
    if terminos.EstaVacia() || totalDocumentos <= 0 {
      return;
    }
    ghost var vs0 := Vistas(terminos.Contents, repr);
    var iterador := terminos.ObtenerIterator();
    while iterador.TieneSiguiente()
      invariant fresh(iterador) && iterador.lista == terminos
      invariant Finalizando(iterador, totalDocumentos, repr, vs0)
      decreases |iterador.Elementos| - iterador.Recorridos
    {
      FinalizarSiguiente(iterador, totalDocumentos, repr, vs0);
    }
    assert iterador.Recorridos == |vs0|;
    assert vs0[..iterador.Recorridos] == vs0;
  }

  /** The state of the loop of `CalcularTfIdf`: the terms walked so far
      are finalised, the others keep their states `vs0`. */
  ghost predicate Finalizando(iterador: Iterator<TermInfo>, totalDocumentos: int, repr: set<object>, vs0: seq<TermVista>)
    reads iterador, iterador.lista, iterador.Elementos, repr
  {
    && iterador.Valid() && iterador !in repr && iterador.lista !in repr
    && iterador.Recorridos <= |iterador.Elementos| == |vs0|
    && TerminosBien(iterador.Elementos, repr)
    && Vistas(iterador.Elementos, repr) == Finalizados(vs0[..iterador.Recorridos], totalDocumentos) + vs0[iterador.Recorridos..]
  }

  /** One step of `CalcularTfIdf`: the next term is finalised. */
  method FinalizarSiguiente(iterador: Iterator<TermInfo>, totalDocumentos: int, ghost repr: set<object>, ghost vs0: seq<TermVista>)
    requires iterador.Valid() && TerminosBien(iterador.Elementos, repr) && iterador !in repr && iterador.lista !in repr
    requires iterador.Recorridos < |iterador.Elementos| == |vs0|
    requires Vistas(iterador.Elementos, repr) == Finalizados(vs0[..iterador.Recorridos], totalDocumentos) + vs0[iterador.Recorridos..]
    modifies iterador, repr
    ensures iterador.Valid() && TerminosBien(iterador.Elementos, repr)
    ensures iterador.Elementos == old(iterador.Elementos) && iterador.Recorridos == old(iterador.Recorridos) + 1 <= |iterador.Elementos|
    ensures Vistas(iterador.Elementos, repr) == Finalizados(vs0[..iterador.Recorridos], totalDocumentos) + vs0[iterador.Recorridos..]
  {
    ghost var k := iterador.Recorridos;
    ghost var ts := iterador.Elementos;
    var siguiente := iterador.Siguiente();
    var termino := siguiente.value;
    TerminosIntactos(ts, repr);
    FinalizarEn(ts, termino, k, totalDocumentos, repr);
    FinalizadosPaso(vs0, k, totalDocumentos);
  }

  /** The body of the loop of `CalcularTfIdf` on the `k`-th term `t` of
      `ts`: `CalcularIdf`, then `ActualizarTfIdfPostings`; every other term
      keeps its state. */
  method FinalizarEn(ghost ts: seq<TermInfo>, t: TermInfo, ghost k: int, totalDocumentos: int, ghost repr: set<object>)
    requires TerminosBien(ts, repr) && 0 <= k < |ts| && t == ts[k]
    modifies t.Repr
    ensures TerminosBien(ts, repr)
    ensures Vistas(ts, repr) == old(Vistas(ts, repr))[k := Finalizado(old(t.Vista()), totalDocumentos)]
  {
    t.CalcularIdf(totalDocumentos);
    t.ActualizarTfIdfPostings();
    TerminosSalvoUno(ts, k, {}, repr);
    assert repr + {} == repr;
  }

  /** Finalising the `k`-th term extends the finalised prefix by one. */
  lemma FinalizadosPaso(vs: seq<TermVista>, k: int, total: int)
    requires 0 <= k < |vs|
    ensures (Finalizados(vs[..k], total) + vs[k..])[k := Finalizado(vs[k], total)] == Finalizados(vs[..k + 1], total) + vs[k + 1..]
  {
    assert vs[..k + 1][..k] == vs[..k];
  }
}
