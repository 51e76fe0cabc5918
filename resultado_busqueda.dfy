/** One hit of the canonical search: the document, its cosine similarity to
    the query and the query text. The similarity setter only accepts values
    in [0, 1]. */
module Resultados {
  import opened Documentos

  class ResultadoBusqueda {
    var documento: Documento?
    var similitud: real
    var consultaOriginal: string

    /** No document, similarity 0, empty query. */
    constructor Vacio()
      ensures documento == null && similitud == 0.0 && consultaOriginal == ""
    {
      documento := null;
      similitud := 0.0;
      consultaOriginal := "";
    }

    /** A hit whose query text is left empty. */
    constructor ConSimilitud(documento: Documento?, similitud: real)
      ensures this.documento == documento && this.similitud == similitud && consultaOriginal == ""
    {
      this.documento := documento;
      this.similitud := similitud;
      consultaOriginal := "";
    }

    constructor (documento: Documento?, similitud: real, consultaOriginal: string)
      ensures this.documento == documento && this.similitud == similitud
      ensures this.consultaOriginal == consultaOriginal
    {
      this.documento := documento;
      this.similitud := similitud;
      this.consultaOriginal := consultaOriginal;
    }

    /** Takes the new similarity only when it lies in [0, 1]; otherwise the
        result is left as it was. */
    method EstablecerSimilitud(nuevaSimilitud: real)
      modifies this
      ensures 0.0 <= nuevaSimilitud <= 1.0 ==> similitud == nuevaSimilitud
      ensures !(0.0 <= nuevaSimilitud <= 1.0) ==> similitud == old(similitud)
      ensures 0.0 <= old(similitud) <= 1.0 ==> 0.0 <= similitud <= 1.0
      ensures documento == old(documento) && consultaOriginal == old(consultaOriginal)
    {
      if nuevaSimilitud >= 0.0 && nuevaSimilitud <= 1.0 {
        similitud := nuevaSimilitud;
      }
    }

    /** Strictly more similar; any result beats null. */
    predicate EsMasRelevante(otro: ResultadoBusqueda?)
      reads this, otro
      ensures otro == null ==> EsMasRelevante(otro)
      ensures otro == this ==> !EsMasRelevante(otro)
    {
      otro == null || similitud > otro.similitud
    }

    /** Equal documents by id, two null documents counting as equal. */
    predicate EsIgual(otro: ResultadoBusqueda?)
      reads this, otro, documento, if otro == null then {} else {otro.documento}
      ensures EsIgual(otro) ==> otro != null
      ensures otro == this ==> EsIgual(otro)
    {
      if otro == null then false
      else if documento == null && otro.documento == null then true
      else if documento == null || otro.documento == null then false
      else documento.EsIgual(otro.documento)
    }

    /** A new result with the same three fields. */
    method Clonar() returns (copia: ResultadoBusqueda)
      ensures fresh(copia)
      ensures copia.documento == documento && copia.similitud == similitud
      ensures copia.consultaOriginal == consultaOriginal
    {
      copia := new ResultadoBusqueda(documento, similitud, consultaOriginal);
    }
  }

  /** `EsMasRelevante` is a strict order on non-null results: irreflexive,
      asymmetric and transitive; and every result beats null. */
  lemma EsMasRelevanteOrdenEstricto(a: ResultadoBusqueda, b: ResultadoBusqueda, c: ResultadoBusqueda)
    ensures a.EsMasRelevante(null)
    ensures !a.EsMasRelevante(a)
    ensures a.EsMasRelevante(b) ==> !b.EsMasRelevante(a)
    ensures a.EsMasRelevante(b) && b.EsMasRelevante(c) ==> a.EsMasRelevante(c)
  {
  }

  /** The three cases of `EsIgual`: both documents null, exactly one null,
      or both present and compared by id. */
  lemma EsIgualCasos(a: ResultadoBusqueda, b: ResultadoBusqueda)
    ensures !a.EsIgual(null)
    ensures a.documento == null && b.documento == null ==> a.EsIgual(b)
    ensures (a.documento == null) != (b.documento == null) ==> !a.EsIgual(b)
    ensures a.documento != null && b.documento != null ==>
      (a.EsIgual(b) <==> a.documento.id == b.documento.id)
  {
  }
}
