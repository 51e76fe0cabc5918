/** The dictionary-backed inverted index of the array-based variant: a map
    from each term to its entry, whose postings pair a document id with the
    number of times the term was added for that document. */
module Indices {
  import opened Comun

  /** A posting of this index: document id and term frequency. */
  datatype PostingTf = PostingTf(docId: int, tf: int)

  /** A term's entry: the term, its postings, and the document frequency
      `df`, which nothing in this index writes. */
  datatype EntradaTermino = EntradaTermino(term: string, postings: seq<PostingTf>, df: int)

  /** Position of the first posting for `docId` (C# `FirstOrDefault`), or -1. */
  function PosicionDoc(ps: seq<PostingTf>, docId: int): (i: int)
    ensures -1 <= i < |ps|
    ensures i == -1 <==> forall k :: 0 <= k < |ps| ==> ps[k].docId != docId
    ensures i >= 0 ==> ps[i].docId == docId && forall k :: 0 <= k < i ==> ps[k].docId != docId
    decreases |ps|
  {
    if |ps| == 0 then -1
    else if ps[0].docId == docId then 0
    else
      var r := PosicionDoc(ps[1..], docId);
      if r == -1 then -1 else r + 1
  }

  /** At most one posting per document. */
  predicate DocsDistintos(ps: seq<PostingTf>)
  {
    forall i, j :: 0 <= i < j < |ps| ==> ps[i].docId != ps[j].docId
  }

  /** Sum of the frequencies of a posting list. */
  function SumaTf(ps: seq<PostingTf>): int
    decreases |ps|
  {
    if |ps| == 0 then 0 else SumaTf(ps[..|ps| - 1]) + ps[|ps| - 1].tf
  }

  /** Sum of the frequencies of every entry whose term is in `claves`. */
  function TotalTf(claves: seq<string>, m: map<string, EntradaTermino>): int
    requires forall c :: c in claves ==> c in m
    decreases |claves|
  {
    if |claves| == 0 then 0
    else TotalTf(claves[..|claves| - 1], m) + SumaTf(m[claves[|claves| - 1]].postings)
  }

  /** The entry after one more occurrence of its term in `docId`: the
      document's posting gains one, or a posting with frequency 1 is
      appended when the document had none. */
  function ConOcurrencia(e: EntradaTermino, docId: int): EntradaTermino
  {
    var i := PosicionDoc(e.postings, docId);
    if i == -1 then e.(postings := e.postings + [PostingTf(docId, 1)])
    else e.(postings := e.postings[i := e.postings[i].(tf := e.postings[i].tf + 1)])
  }

  /** Every entry is stored under its own term, has `df` still 0 and at
      most one posting per document; `claves` lists the terms once each, and
      the frequencies of all postings add up to `llamadas`. */
  ghost predicate IndiceValido(m: map<string, EntradaTermino>, claves: seq<string>, llamadas: int)
  {
    ClavesDe(m, claves) && EntradasBien(m) && TotalTf(claves, m) == llamadas
  }

  /** `claves` lists the keys of `m`, each once. */
  ghost predicate ClavesDe(m: map<string, EntradaTermino>, claves: seq<string>)
  {
    (forall t :: t in m <==> t in claves) && SinRepetidos(claves)
  }

  /** Every entry is stored under its own term, has `df` 0 and at most one
      posting per document. */
  ghost predicate EntradasBien(m: map<string, EntradaTermino>)
  {
    forall t :: t in m ==> m[t].term == t && m[t].df == 0 && DocsDistintos(m[t].postings)
  }

  /** The entry `AddTerm` works on: the stored one, or a new empty one. */
  function EntradaDe(m: map<string, EntradaTermino>, term: string): EntradaTermino
  {
    if term in m then m[term] else EntradaTermino(term, [], 0)
  }

  /** One `AddTerm` keeps the index valid and counts one more call. */
  lemma AgregarConserva(m: map<string, EntradaTermino>, claves: seq<string>, llamadas: int, term: string, docId: int)
    requires IndiceValido(m, claves, llamadas)
    ensures term in m ==> IndiceValido(m[term := ConOcurrencia(EntradaDe(m, term), docId)], claves, llamadas + 1)
    ensures term !in m ==> IndiceValido(m[term := ConOcurrencia(EntradaDe(m, term), docId)], claves + [term], llamadas + 1)
  {
    var e := EntradaDe(m, term);
    var e' := ConOcurrencia(e, docId);
    EntradaDeBien(m, term);
    ConOcurrenciaConserva(e, docId);
    EntradasTras(m, term, e');
    if term in m {
      AgregarExistente(m, claves, llamadas, term, e');
    } else {
      AgregarNuevo(m, claves, llamadas, term, e');
    }
  }

  /** Replacing a stored entry by a well-formed one with one more frequency. */
  lemma AgregarExistente(m: map<string, EntradaTermino>, claves: seq<string>, llamadas: int, term: string, e: EntradaTermino)
    requires ClavesDe(m, claves) && TotalTf(claves, m) == llamadas && term in m
    requires EntradasBien(m[term := e])
    requires SumaTf(e.postings) == SumaTf(m[term].postings) + 1
    ensures IndiceValido(m[term := e], claves, llamadas + 1)
  {
    TotalTfCambio(claves, m, term, e);
  }

  /** Storing a new term's well-formed entry with frequencies adding up to one. */
  lemma AgregarNuevo(m: map<string, EntradaTermino>, claves: seq<string>, llamadas: int, term: string, e: EntradaTermino)
    requires ClavesDe(m, claves) && TotalTf(claves, m) == llamadas && term !in m
    requires EntradasBien(m[term := e])
    requires SumaTf(e.postings) == 1
    ensures IndiceValido(m[term := e], claves + [term], llamadas + 1)
  {
    var claves' := claves + [term];
    TotalTfFuera(claves, m, term, e);
    assert claves'[..|claves'| - 1] == claves;
  }

  /** The entry `AddTerm` starts from is well formed. */
  lemma EntradaDeBien(m: map<string, EntradaTermino>, term: string)
    requires EntradasBien(m)
    ensures var e := EntradaDe(m, term);
      e.term == term && e.df == 0 && DocsDistintos(e.postings)
  {
  }

  /** Storing a well-formed entry under its own term keeps every entry well formed. */
  lemma EntradasTras(m: map<string, EntradaTermino>, term: string, e: EntradaTermino)
    requires EntradasBien(m)
    requires e.term == term && e.df == 0 && DocsDistintos(e.postings)
    ensures EntradasBien(m[term := e])
  {
  }

  class InvertedIndex {
    var index: map<string, EntradaTermino>
    /** The terms in the order they entered the dictionary. */
    ghost var Claves: seq<string>
    /** The number of `AddTerm` calls so far. */
    ghost var Llamadas: nat

    ghost predicate Valid()
      reads this
    {
      IndiceValido(index, Claves, Llamadas)
    }

    constructor ()
      ensures Valid() && index == map[] && Llamadas == 0
    {
      index := map[];
      Claves := [];
      Llamadas := 0;
    }

    /** Records one occurrence of `term` in document `docId`, creating the
        term's entry first when it has none. */
    method AddTerm(term: string, docId: int)
      requires Valid()
      modifies this
      ensures Valid() && Llamadas == old(Llamadas) + 1
      ensures index == old(index)[term := ConOcurrencia(EntradaDe(old(index), term), docId)]
    {
      ghost var m, c, l := index, Claves, Llamadas;
      if term !in index {
        index := index[term := EntradaTermino(term, [], 0)];
        Claves := Claves + [term];
      }
      var entrada := index[term];
      assert entrada == EntradaDe(m, term);
      var postings := entrada.postings;
      var posicion := PosicionDoc(postings, docId);
      if posicion == -1 {
        entrada := entrada.(postings := postings + [PostingTf(docId, 1)]);
      } else {
        entrada := entrada.(postings := postings[posicion := postings[posicion].(tf := postings[posicion].tf + 1)]);
      }
      assert entrada == ConOcurrencia(EntradaDe(m, term), docId);
      index := index[term := entrada];
      Llamadas := Llamadas + 1;
      assert index == m[term := entrada];
      assert Claves == if term in m then c else c + [term];
      AgregarConserva(m, c, l, term, docId);
    }

    /** The dictionary itself, with the invariant its entries keep. */
    function GetIndex(): (r: map<string, EntradaTermino>)
      reads this
      requires Valid()
      ensures r == index
      ensures forall t :: t in r ==> r[t].term == t && r[t].df == 0 && DocsDistintos(r[t].postings)
    {
      index
    }
  }

  /** What `AddTerm` does to the dictionary: it gains `term`, no other
      entry changes, an unseen term gets a single posting of frequency 1
      and `df` 0, and the frequencies in the index add up to one more. */
  lemma AgregarEfecto(m: map<string, EntradaTermino>, claves: seq<string>, llamadas: int, term: string, docId: int)
    requires IndiceValido(m, claves, llamadas)
    ensures var r := m[term := ConOcurrencia(EntradaDe(m, term), docId)];
      && r.Keys == m.Keys + {term}
      && (forall t :: t in m && t != term ==> r[t] == m[t])
      && (term !in m ==> r[term] == EntradaTermino(term, [PostingTf(docId, 1)], 0))
      && DocsDistintos(r[term].postings) && r[term].df == 0
  {
    AgregarConserva(m, claves, llamadas, term, docId);
  }

  /** An entry outside `claves` does not count towards their total. */
  lemma {:induction false} TotalTfFuera(claves: seq<string>, m: map<string, EntradaTermino>, t: string, e: EntradaTermino)
    requires forall c :: c in claves ==> c in m
    requires t !in claves
    ensures TotalTf(claves, m[t := e]) == TotalTf(claves, m)
    decreases |claves|
  {
    if |claves| > 0 {
      TotalTfFuera(claves[..|claves| - 1], m, t, e);
    }
  }

  /** Replacing one entry changes the total by the difference of its sums. */
  lemma {:induction false} TotalTfCambio(claves: seq<string>, m: map<string, EntradaTermino>, t: string, e: EntradaTermino)
    requires forall c :: c in claves ==> c in m
    requires t in claves && SinRepetidos(claves)
    ensures TotalTf(claves, m[t := e]) == TotalTf(claves, m) - SumaTf(m[t].postings) + SumaTf(e.postings)
    decreases |claves|
  {
    var n := |claves|;
    var previas := claves[..n - 1];
    if claves[n - 1] == t {
      assert t !in previas;
      TotalTfFuera(previas, m, t, e);
    } else {
      assert t in previas;
      TotalTfCambio(previas, m, t, e);
    }
  }

  /** Raising one frequency by one raises the sum by one. */
  lemma {:induction false} SumaTfIncremento(ps: seq<PostingTf>, i: nat)
    requires i < |ps|
    ensures SumaTf(ps[i := ps[i].(tf := ps[i].tf + 1)]) == SumaTf(ps) + 1
    decreases |ps|
  {
    var qs := ps[i := ps[i].(tf := ps[i].tf + 1)];
    var n := |ps|;
    if i == n - 1 {
      assert qs[..n - 1] == ps[..n - 1];
    } else {
      assert qs[..n - 1] == ps[..n - 1][i := ps[i].(tf := ps[i].tf + 1)];
      SumaTfIncremento(ps[..n - 1], i);
    }
  }

  /** One more occurrence keeps one posting per document, adds exactly one
      to the entry's total, leaves term and `df` alone, and either raises
      the document's existing posting or appends a posting with frequency 1. */
  lemma ConOcurrenciaConserva(e: EntradaTermino, docId: int)
    requires DocsDistintos(e.postings)
    ensures var r := ConOcurrencia(e, docId);
      && DocsDistintos(r.postings)
      && SumaTf(r.postings) == SumaTf(e.postings) + 1
      && r.term == e.term && r.df == e.df
      && ((forall k :: 0 <= k < |e.postings| ==> e.postings[k].docId != docId) ==>
            r.postings == e.postings + [PostingTf(docId, 1)])
  {
    var ps := e.postings;
    var i := PosicionDoc(ps, docId);
    if i == -1 {
      assert (ps + [PostingTf(docId, 1)])[..|ps|] == ps;
    } else {
      SumaTfIncremento(ps, i);
    }
  }

  /** With a posting for `docId` already present, one more occurrence
      raises that posting and adds none. */
  lemma ConOcurrenciaExistente(e: EntradaTermino, docId: int, k: nat)
    requires DocsDistintos(e.postings) && k < |e.postings| && e.postings[k].docId == docId
    ensures var r := ConOcurrencia(e, docId);
      && |r.postings| == |e.postings|
      && r.postings[k] == PostingTf(docId, e.postings[k].tf + 1)
      && forall j :: 0 <= j < |e.postings| && j != k ==> r.postings[j] == e.postings[j]
  {
    var i := PosicionDoc(e.postings, docId);
    assert i == k;
  }

  /** Adding "cat" for document 1 twice leaves one posting of frequency 2. */
  lemma DosVecesElMismoDocumento()
    ensures ConOcurrencia(ConOcurrencia(EntradaTermino("cat", [], 0), 1), 1)
         == EntradaTermino("cat", [PostingTf(1, 2)], 0)
  {
    var e1 := ConOcurrencia(EntradaTermino("cat", [], 0), 1);
    assert e1.postings == [PostingTf(1, 1)];
    assert PosicionDoc(e1.postings, 1) == 0;
  }
}
