/** The vocabulary of the array-based variant: the index's terms in a
    circular list, each at most once, in the order they were first added. */
module Vocabularios {
  import opened Comun
  import opened Listas

  class Vocabulario {
    const terminos: ListaDobleCircular<string>

    /** The list is well formed and holds no term twice. */
    ghost predicate Valid()
      reads this, terminos
    {
      terminos.Valid() && SinRepetidos(terminos.Contents)
    }

    /** An empty vocabulary. */
    constructor ()
      ensures Valid() && fresh(terminos) && terminos.Contents == []
    {
      terminos := new ListaDobleCircular<string>();
    }

    /** Appends `termino` unless the list already holds it. */
    method AgregarTermino(termino: string)
      requires Valid()
      modifies terminos
      ensures Valid()
      ensures termino in old(terminos.Contents) ==> terminos.Contents == old(terminos.Contents)
      ensures termino !in old(terminos.Contents) ==> terminos.Contents == old(terminos.Contents) + [termino]
    {
      var existe := terminos.Buscar(termino);
      if existe == None {
        terminos.Insertar(termino);
      }
    }

    /** Position of `termino`, or -1 when it was never added. */
    method ObtenerIndice(termino: string) returns (indice: int)
      requires Valid()
      ensures indice == Posicion(terminos.Contents, termino)
    {
      indice := PosicionEnLista(terminos, termino);
    }

    /** The term at `indice`, or `None` (C# `null`) out of range. */
    method ObtenerTermino(indice: int) returns (resultado: Option<string>)
      requires Valid()
      ensures resultado == ElementoEn(terminos.Contents, indice)
    {
      resultado := ElementoEnLista(terminos, indice);
    }

    method Count() returns (n: int)
      requires Valid()
      ensures n == |terminos.Contents|
    {
      n := terminos.Count();
    }

    function EstaVacio(): (b: bool)
      reads this, terminos
      requires Valid()
      ensures b <==> |terminos.Contents| == 0
    {
      terminos.EstaVacia()
    }
  }

  /** `AgregarTermino` grows the vocabulary by at most one, and adding a
      term twice is adding it once. */
  lemma {:induction false} AgregarDosVeces(c: seq<string>, t: string)
    requires SinRepetidos(c)
    ensures var c1 := if t in c then c else c + [t];
      && SinRepetidos(c1)
      && |c| <= |c1| <= |c| + 1
      && t in c1
      && (if t in c1 then c1 else c1 + [t]) == c1
  {
  }

  /** In a valid vocabulary `ObtenerIndice` and `ObtenerTermino` are
      inverse: an added term is found back at its index, and each index
      in range is the index of the term it holds. */
  lemma IndiceYTerminoInversos(v: Vocabulario, t: string, p: int)
    requires v.Valid()
    ensures t in v.terminos.Contents ==> ElementoEn(v.terminos.Contents, Posicion(v.terminos.Contents, t)) == Some(t)
    ensures 0 <= p < |v.terminos.Contents| ==> Posicion(v.terminos.Contents, v.terminos.Contents[p]) == p
  {
    PosicionElementoEn(v.terminos.Contents, t, p);
  }
}
