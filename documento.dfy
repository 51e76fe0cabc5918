/** A crawled document: its id (derived from the file name), its raw and
    normalised text, its tokens, and the queries the indexer asks of it. */
module Documentos {
  import opened Comun
  import opened Listas
  import opened Texto
  import opened Normalizacion
  import opened Tokenizacion

  // ---------------------------------------------------------------------
  // File names

  predicate EsSeparador(c: char)
  {
    c == '\\' || c == '/'
  }

  predicate EsPunto(c: char)
  {
    c == '.'
  }

  /** Position of the last character of `s` satisfying `p`, or -1. */
  function UltimaPosicion(s: string, p: char -> bool): (i: int)
    ensures -1 <= i < |s|
    ensures i >= 0 ==> p(s[i])
    ensures forall k :: i < k < |s| ==> !p(s[k])
    decreases |s|
  {
    if |s| == 0 then -1
    else if p(s[|s| - 1]) then |s| - 1
    else UltimaPosicion(s[..|s| - 1], p)
  }

  /** The last path component, without separators. */
  function Componente(ruta: string): string
  {
    ruta[UltimaPosicion(ruta, EsSeparador) + 1..]
  }

  /** The file name of a path: the last component, cut before its last dot
      when it has one. */
  function NombreArchivo(ruta: string): (r: string)
    ensures |r| <= |Componente(ruta)|
    ensures forall k :: 0 <= k < |r| ==> !EsSeparador(r[k])
    ensures r == Componente(ruta)[..|r|]
    ensures |r| < |Componente(ruta)| ==>
      && Componente(ruta)[|r|] == '.'
      && forall k :: |r| < k < |Componente(ruta)| ==> Componente(ruta)[k] != '.'
    ensures |r| == |Componente(ruta)| ==> '.' !in Componente(ruta)
  {
    var nombre := Componente(ruta);
    var punto := UltimaPosicion(nombre, EsPunto);
    if punto == -1 then nombre else nombre[..punto]
  }

  /** The id a document gets from its path; `marcaTiempo` stands for the
      clock reading used when the path yields no name. */
  function IdDesdeRuta(ruta: string, marcaTiempo: string): string
  {
    if ruta == "" || NombreArchivo(ruta) == "" then "DOC_" + marcaTiempo
    else "DOC_" + NombreArchivo(ruta)
  }

  /** Scans back for the last separator, copies the component, scans back
      for the last dot and copies what precedes it. */
  method ExtraerNombreArchivo(ruta: string) returns (nombre: string)
    ensures nombre == NombreArchivo(ruta)
  {
    if ruta == "" {
      return "";
    }
    var ultimoSeparador := BuscarUltimo(ruta, EsSeparador);
    var nombreConExtension: string;
    if ultimoSeparador == -1 {
      nombreConExtension := ruta;
    } else {
      nombreConExtension := Copiar(ruta, ultimoSeparador + 1, |ruta|);
    }
    assert nombreConExtension == Componente(ruta);
    var ultimoPunto := BuscarUltimo(nombreConExtension, EsPunto);
    if ultimoPunto == -1 {
      return nombreConExtension;
    }
    nombre := Copiar(nombreConExtension, 0, ultimoPunto);
  }

  /** The backward scan for the last character satisfying `p`. */
  method BuscarUltimo(s: string, p: char -> bool) returns (ultimo: int)
    ensures ultimo == UltimaPosicion(s, p)
  {
    ultimo := -1;
    var i := |s| - 1;
    while i >= 0
      invariant -1 <= i < |s|
      invariant forall k :: i < k < |s| ==> !p(s[k])
    {
      if p(s[i]) {
        ultimo := i;
        break;
      }
      i := i - 1;
    }
    UltimaPosicionEn(s, p, ultimo);
  }

  /** Character-by-character copy of `s[desde..hasta]`. */
  method Copiar(s: string, desde: nat, hasta: nat) returns (r: string)
    requires desde <= hasta <= |s|
    ensures r == s[desde..hasta]
  {
    r := "";
    for j := desde to hasta
      invariant r == s[desde..j]
    {
      r := r + [s[j]];
    }
  }

  /** "DOC_" and the file name, or "DOC_" and the clock reading. */
  method GenerarIdDesdeRuta(ruta: string, marcaTiempo: string) returns (id: string)
    ensures NombreArchivo(ruta) != "" ==> id == "DOC_" + NombreArchivo(ruta)
    ensures NombreArchivo(ruta) == "" ==> id == "DOC_" + marcaTiempo
  {
    if ruta == "" {
      return "DOC_" + marcaTiempo;
    }
    var nombreArchivo := ExtraerNombreArchivo(ruta);
    if nombreArchivo == "" {
      return "DOC_" + marcaTiempo;
    }
    return "DOC_" + nombreArchivo;
  }

  /** The last match is the one after which nothing matches. */
  lemma UltimaPosicionEn(s: string, p: char -> bool, i: int)
    requires -1 <= i < |s| && (i >= 0 ==> p(s[i]))
    requires forall k :: i < k < |s| ==> !p(s[k])
    ensures UltimaPosicion(s, p) == i
  {
  }

  lemma NombreArchivoEjemplos()
    ensures NombreArchivo("a/b/c.txt") == "c"
    ensures NombreArchivo("c:\\docs\\informe.final.txt") == "informe.final"
    ensures NombreArchivo("carpeta/") == ""
  {
    NombreArchivoSimple();
    NombreArchivoDosPuntos();
    UltimaPosicionEn("carpeta/", EsSeparador, 7);
  }

  lemma NombreArchivoSimple()
    ensures NombreArchivo("a/b/c.txt") == "c"
  {
    UltimaPosicionEn("a/b/c.txt", EsSeparador, 3);
    assert Componente("a/b/c.txt") == "c.txt";
    UltimaPosicionEn("c.txt", EsPunto, 1);
  }

  lemma NombreArchivoDosPuntos()
    ensures NombreArchivo("c:\\docs\\informe.final.txt") == "informe.final"
  {
    var ruta := "c:\\docs\\informe.final.txt";
    UltimaPosicionEn(ruta, EsSeparador, 7);
    assert ruta[8..] == "informe.final.txt";
    assert Componente(ruta) == "informe.final.txt";
    UltimaPosicionEn("informe.final.txt", EsPunto, 13);
    assert "informe.final.txt"[..13] == "informe.final";
  }

  // ---------------------------------------------------------------------
  // Distinct terms

  /** The distinct elements of `s` in order of first occurrence. */
  function Unicos<T(==)>(s: seq<T>): (u: seq<T>)
    ensures SinRepetidos(u)
    ensures forall i :: 0 <= i < |s| ==> s[i] in u
    ensures forall i :: 0 <= i < |u| ==> u[i] in s
    decreases |s|
  {
    if |s| == 0 then []
    else
      var u := Unicos(s[..|s| - 1]);
      var x := s[|s| - 1];
      if x in u then u else u + [x]
  }

  /** Earlier distinct terms occur first earlier in `s`. */
  lemma {:induction false} UnicosEnOrden<T>(s: seq<T>, i: nat, j: nat)
    requires i < j < |Unicos(s)|
    ensures PrimerIndice(s, Unicos(s)[i]) < PrimerIndice(s, Unicos(s)[j])
    decreases |s|
  {
    var p := s[..|s| - 1];
    var u := Unicos(p);
    var x := s[|s| - 1];
    PrimerIndicePrefijo(s, Unicos(s)[i]);
    if j < |u| {
      UnicosEnOrden(p, i, j);
      PrimerIndicePrefijo(s, Unicos(s)[j]);
    } else {
      assert Unicos(s)[j] == x && x !in p;
      assert PrimerIndice(s, x) == |s| - 1 by {
        PrimerIndiceUnico(s, x, |s| - 1);
      }
    }
  }

  /** On an element of the prefix, the first index is the prefix's. */
  lemma PrimerIndicePrefijo<T>(s: seq<T>, x: T)
    requires |s| > 0 && x in s[..|s| - 1]
    ensures PrimerIndice(s, x) == PrimerIndice(s[..|s| - 1], x)
  {
    var p := s[..|s| - 1];
    var k := PrimerIndice(p, x);
    assert s[..k] == p[..k];
    PrimerIndiceUnico(s, x, k);
  }

  /** One more element is appended to the distinct ones unless already seen. */
  lemma UnicosPaso<T>(s: seq<T>, i: nat)
    requires i < |s|
    ensures Unicos(s[..i + 1]) == if s[i] in Unicos(s[..i]) then Unicos(s[..i]) else Unicos(s[..i]) + [s[i]]
  {
    assert s[..i + 1][..i] == s[..i];
  }

  /** Whether `elemento` is in the list, by an iterator walk. */
  method ExisteEnLista(lista: ListaDobleCircular<string>, elemento: string) returns (b: bool)
    requires lista.Valid()
    ensures b <==> elemento in lista.Contents
  {
    if lista.EstaVacia() {
      return false;
    }
    var iterador := lista.ObtenerIterator();
    while iterador.TieneSiguiente()
      invariant fresh(iterador) && iterador.Valid() && iterador.lista == lista
      invariant iterador.Elementos == lista.Contents
      invariant elemento !in lista.Contents[..iterador.Recorridos]
      decreases |iterador.Elementos| - iterador.Recorridos
    {
      ghost var k := iterador.Recorridos;
      var elementoActual := iterador.Siguiente();
      assert lista.Contents[..k + 1] == lista.Contents[..k] + [lista.Contents[k]];
      if elementoActual.value == elemento {
        return true;
      }
    }
    assert lista.Contents[..|lista.Contents|] == lista.Contents;
    return false;
  }

  /** The list's elements in an array of its size, in list order. */
  method ConvertirListaAArreglo(lista: ListaDobleCircular<string>) returns (arreglo: array<string>)
    requires lista.Valid()
    ensures fresh(arreglo) && arreglo[..] == lista.Contents
  {
    if lista.EstaVacia() {
      return new string[0];
    }
    var tamano := lista.Count();
    arreglo := new string[tamano];
    var iterador := lista.ObtenerIterator();
    for i := 0 to tamano
      invariant fresh(iterador) && iterador.Valid() && iterador.lista == lista
      invariant iterador.Elementos == lista.Contents && iterador.Recorridos == i
      invariant arreglo[..i] == lista.Contents[..i]
    {
      SiguienteEnArreglo(iterador, arreglo, i);
    }
    assert lista.Contents[..tamano] == lista.Contents;
  }

  // ---------------------------------------------------------------------
  // The document

  class Documento {
    var id: string
    var rutaArchivo: string
    var contenidoOriginal: string
    var contenidoNormalizado: string
    var tokens: seq<string>
    var procesado: bool

    /** An empty, unprocessed document. */
    constructor ()
      ensures id == "" && rutaArchivo == "" && contenidoOriginal == ""
      ensures contenidoNormalizado == "" && tokens == [] && !procesado
    {
      id := "";
      rutaArchivo := "";
      contenidoOriginal := "";
      contenidoNormalizado := "";
      tokens := [];
      procesado := false;
    }

    /** A document whose id is derived from its path. */
    constructor DesdeRuta(rutaArchivo: string, marcaTiempo: string)
      ensures id == IdDesdeRuta(rutaArchivo, marcaTiempo) && this.rutaArchivo == rutaArchivo
      ensures contenidoOriginal == "" && contenidoNormalizado == "" && tokens == [] && !procesado
    {
      this.rutaArchivo := rutaArchivo;
      var generado := GenerarIdDesdeRuta(rutaArchivo, marcaTiempo);
      id := generado;
      contenidoOriginal := "";
      contenidoNormalizado := "";
      tokens := [];
      procesado := false;
    }

    constructor ConId(id: string, rutaArchivo: string)
      ensures this.id == id && this.rutaArchivo == rutaArchivo
      ensures contenidoOriginal == "" && contenidoNormalizado == "" && tokens == [] && !procesado
    {
      this.id := id;
      this.rutaArchivo := rutaArchivo;
      contenidoOriginal := "";
      contenidoNormalizado := "";
      tokens := [];
      procesado := false;
    }

    /** New raw text (`None` is C#'s null, stored as ""); the document has
        to be processed again. */
    method SetContenido(contenido: Option<string>)
      modifies this
      ensures contenidoOriginal == (if contenido.None? then "" else contenido.value)
      ensures !procesado
      ensures id == old(id) && rutaArchivo == old(rutaArchivo)
      ensures contenidoNormalizado == old(contenidoNormalizado) && tokens == old(tokens)
    {
      if contenido.None? {
        contenidoOriginal := "";
      } else {
        contenidoOriginal := contenido.value;
      }
      procesado := false;
    }

    method SetId(nuevoId: Option<string>)
      modifies this
      ensures id == (if nuevoId.None? then "" else nuevoId.value)
      ensures rutaArchivo == old(rutaArchivo) && contenidoOriginal == old(contenidoOriginal)
      ensures contenidoNormalizado == old(contenidoNormalizado) && tokens == old(tokens)
      ensures procesado == old(procesado)
    {
      if nuevoId.None? {
        id := "";
      } else {
        id := nuevoId.value;
      }
    }

    /** Normalises and tokenises the raw text; empty text yields no tokens. */
    method ProcesarContenido(stopwords: set<string>)
      modifies this
      ensures contenidoNormalizado == Normalizado(old(contenidoOriginal), stopwords)
      ensures tokens == Tokenizado(contenidoNormalizado)
      ensures old(contenidoOriginal) == "" ==> contenidoNormalizado == "" && tokens == []
      ensures procesado
      ensures id == old(id) && rutaArchivo == old(rutaArchivo) && contenidoOriginal == old(contenidoOriginal)
    {
      if contenidoOriginal == "" {
        contenidoNormalizado := "";
        tokens := [];
        procesado := true;
        return;
      }
      contenidoNormalizado := NormalizarTexto(contenidoOriginal, stopwords);
      var arreglo := TokenizarTexto(contenidoNormalizado);
      tokens := arreglo[..];
      procesado := true;
    }

    /** Whether some token equals the (non-empty) term. */
    method TieneTermino(termino: string) returns (b: bool)
      ensures b <==> termino != "" && termino in tokens
    {
      if termino == "" {
        return false;
      }
      for i := 0 to |tokens|
        invariant termino !in tokens[..i]
      {
        assert tokens[..i + 1] == tokens[..i] + [tokens[i]];
        if tokens[i] == termino {
          return true;
        }
      }
      assert tokens[..|tokens|] == tokens;
      return false;
    }

    /** How many tokens equal the term; 0 for the empty term. */
    method ContarFrecuenciaTermino(termino: string) returns (frecuencia: int)
      ensures frecuencia == if termino == "" then 0 else Ocurrencias(tokens, termino)
    {
      if termino == "" {
        return 0;
      }
      frecuencia := 0;
      for i := 0 to |tokens|
        invariant frecuencia == Ocurrencias(tokens[..i], termino)
      {
        assert tokens[..i + 1][..i] == tokens[..i];
        if tokens[i] == termino {
          frecuencia := frecuencia + 1;
        }
      }
      assert tokens[..|tokens|] == tokens;
    }

    /** The distinct tokens in order of first occurrence, collected in a
        list that is searched before every insertion. */
    method GetTerminosUnicos() returns (arreglo: array<string>)
      ensures fresh(arreglo) && arreglo[..] == Unicos(tokens)
    {
      if |tokens| == 0 {
        return new string[0];
      }
      var terminosUnicos := new ListaDobleCircular<string>();
      for i := 0 to |tokens|
        invariant fresh(terminosUnicos) && terminosUnicos.Valid()
        invariant terminosUnicos.Contents == Unicos(tokens[..i])
      {
        UnicosPaso(tokens, i);
        var token := tokens[i];
        var existe := ExisteEnLista(terminosUnicos, token);
        if !existe {
          terminosUnicos.Insertar(token);
        }
      }
      assert tokens[..|tokens|] == tokens;
      arreglo := ConvertirListaAArreglo(terminosUnicos);
    }

    /** Same id; never equal to null. */
    predicate EsIgual(otro: Documento?)
      reads this, otro
      ensures EsIgual(otro) ==> otro != null
      ensures otro == this ==> EsIgual(otro)
    {
      otro != null && id == otro.id
    }
  }

  /** `TieneTermino` holds exactly when `ContarFrecuenciaTermino` is positive. */
  lemma TieneSiFrecuenciaPositiva(tokens: seq<string>, termino: string)
    ensures (termino != "" && termino in tokens) <==>
      (if termino == "" then 0 else Ocurrencias(tokens, termino)) > 0
  {
  }

  /** `EsIgual` is decided by the ids alone: it is an equivalence on
      documents and false for null. */
  lemma EsIgualPorId(a: Documento, b: Documento, c: Documento)
    ensures a.EsIgual(b) <==> a.id == b.id
    ensures !a.EsIgual(null)
    ensures a.EsIgual(a)
    ensures a.EsIgual(b) ==> b.EsIgual(a)
    ensures a.EsIgual(b) && b.EsIgual(c) ==> a.EsIgual(c)
  {
  }

  /** The tokens a processed document ends up with are non-empty words of
      letters and digits, none of them a stopword. */
  lemma TokensNormalizados(t: string, stopwords: set<string>)
    ensures forall k :: 0 <= k < |Tokenizado(Normalizado(t, stopwords))| ==>
      var w := Tokenizado(Normalizado(t, stopwords))[k];
      w != "" && ' ' !in w && w !in stopwords && Sobre(w, AlfanumericoOEspacio)
  {
    var n := Normalizado(t, stopwords);
    TokenizadoSonPiezas(n);
    if n != "" {
      NormalizadoSinStopwords(t, stopwords);
      NormalizadoForma(t, stopwords);
      PartirSobre(n, AlfanumericoOEspacio);
      var ws := NoVacias(Partir(n));
      forall k | 0 <= k < |ws|
        ensures ws[k] in Partir(n)
      {
        NoVaciasEnPiezas(Partir(n), k);
      }
    }
  }
}
