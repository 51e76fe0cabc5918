/** One entry of the inverted index: a term's occurrences in one document.
    Postings are shared objects: the indexing pass increments `frecuencia`
    in place and the finalisation pass overwrites `tfIdf`. Identity is by
    document id only. */
module Postings {

  /** The observable state of a posting. */
  datatype PostingValor = PostingValor(idDocumento: string, frecuencia: int, tfIdf: real)

  class Posting {
    var idDocumento: string
    var frecuencia: int
    var tfIdf: real

    /** Default constructor: no document, frequency 0, tf-idf 0. */
    constructor Vacio()
      ensures Valor() == PostingValor("", 0, 0.0)
    {
      idDocumento := "";
      frecuencia := 0;
      tfIdf := 0.0;
    }

    /** A posting whose tf-idf is computed later. */
    constructor (idDocumento: string, frecuencia: int)
      ensures Valor() == PostingValor(idDocumento, frecuencia, 0.0)
    {
      this.idDocumento := idDocumento;
      this.frecuencia := frecuencia;
      this.tfIdf := 0.0;
    }

    constructor Completo(idDocumento: string, frecuencia: int, tfIdf: real)
      ensures Valor() == PostingValor(idDocumento, frecuencia, tfIdf)
    {
      this.idDocumento := idDocumento;
      this.frecuencia := frecuencia;
      this.tfIdf := tfIdf;
    }

    function Valor(): PostingValor
      reads this
    {
      PostingValor(idDocumento, frecuencia, tfIdf)
    }

    /** One more occurrence of the term in the document. */
    method IncrementarFrecuencia()
      modifies this
      ensures Valor() == old(Valor()).(frecuencia := old(frecuencia) + 1)
    {
      frecuencia := frecuencia + 1;
    }

    method EstablecerTfIdf(valor: real)
      modifies this
      ensures Valor() == old(Valor()).(tfIdf := valor)
    {
      tfIdf := valor;
    }

    /** `TermInfo` calls this with the term's idf; it stores the weight
        frequency times idf through `EstablecerTfIdf`. */
    method CalcularTfIdf(idf: real)
      modifies this
      ensures Valor() == ConTfIdf(old(Valor()), idf)
    {
      EstablecerTfIdf(frecuencia as real * idf);
    }

    /** Same document, whatever the counts; never equal to null. */
    predicate EsIgual(otro: Posting?)
      reads this, otro
      ensures EsIgual(otro) ==> otro != null
      ensures otro == this ==> EsIgual(otro)
    {
      otro != null && idDocumento == otro.idDocumento
    }

    /** The `object` overload: false for null and for any other class. */
    predicate Equals(obj: object?)
      reads this, if obj is Posting then {obj as Posting} else {}
      ensures Equals(obj) ==> obj is Posting
      ensures obj is Posting ==> (Equals(obj) <==> EsIgual(obj as Posting))
      ensures obj == this ==> Equals(obj)
    {
      obj != null && obj is Posting && idDocumento == (obj as Posting).idDocumento
    }

    /** A new posting with the same three fields. */
    method Clonar() returns (copia: Posting)
      ensures fresh(copia) && copia.Valor() == Valor()
    {
      copia := new Posting.Completo(idDocumento, frecuencia, tfIdf);
    }
  }

  /** The weight a posting gets from the idf of its term. */
  function ConTfIdf(p: PostingValor, idf: real): PostingValor
  {
    p.(tfIdf := p.frecuencia as real * idf)
  }

  /** `EsIgual` is decided by the document id alone. */
  lemma EsIgualSoloPorId(p: Posting, q: Posting)
    ensures p.EsIgual(q) <==> p.Valor().idDocumento == q.Valor().idDocumento
    ensures !p.EsIgual(null)
  {
  }

  /** The `object` overload agrees with `EsIgual` on postings, and both are
      reflexive, symmetric and transitive. */
  lemma EqualsComoEsIgual(p: Posting, q: Posting, r: Posting)
    ensures p.Equals(q) <==> p.EsIgual(q)
    ensures p.Equals(p)
    ensures p.Equals(q) ==> q.Equals(p)
    ensures p.Equals(q) && q.Equals(r) ==> p.Equals(r)
  {
  }
}
