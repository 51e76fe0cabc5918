/** The configuration part of the directory reader: recursion flag, the
    accepted file-size range, the file counter, and the checks on paths
    (".txt" extension, directory path shape). Walking directories and
    reading file sizes are left out. */
module Lector {
  import opened Normalizacion

  /** Default smallest accepted file: 1 KB. */
  const TAMANO_MINIMO_DEFECTO: int := 1024
  /** Default largest accepted file: 1 MB. */
  const TAMANO_MAXIMO_DEFECTO: int := 1024 * 1024

  class LectorDirectorios {
    var lecturaRecursiva: bool
    var tamanoMinimo: int
    var tamanoMaximo: int
    var contadorArchivos: int

    /** Recursive, 1 KB to 1 MB, no file counted yet. */
    constructor ()
      ensures lecturaRecursiva && contadorArchivos == 0
      ensures tamanoMinimo == 1024 && tamanoMaximo == 1048576
    {
      lecturaRecursiva := true;
      tamanoMinimo := TAMANO_MINIMO_DEFECTO;
      tamanoMaximo := TAMANO_MAXIMO_DEFECTO;
      contadorArchivos := 0;
    }

    /** A non-positive minimum falls back to 1 KB; the maximum falls back to
        1 MB unless it exceeds the minimum as given (not as corrected). */
    constructor Personalizado(recursivo: bool, tamanoMin: int, tamanoMax: int)
      ensures lecturaRecursiva == recursivo && contadorArchivos == 0
      ensures tamanoMinimo == if tamanoMin > 0 then tamanoMin else TAMANO_MINIMO_DEFECTO
      ensures tamanoMaximo == if tamanoMax > tamanoMin then tamanoMax else TAMANO_MAXIMO_DEFECTO
    {
      lecturaRecursiva := recursivo;
      tamanoMinimo := if tamanoMin > 0 then tamanoMin else TAMANO_MINIMO_DEFECTO;
      tamanoMaximo := if tamanoMax > tamanoMin then tamanoMax else TAMANO_MAXIMO_DEFECTO;
      contadorArchivos := 0;
    }

    /** Takes the new range only when 0 < min < max. */
    method ConfigurarRangoTamanos(tamanoMin: int, tamanoMax: int)
      modifies this
      ensures 0 < tamanoMin < tamanoMax ==> tamanoMinimo == tamanoMin && tamanoMaximo == tamanoMax
      ensures !(0 < tamanoMin < tamanoMax) ==> tamanoMinimo == old(tamanoMinimo) && tamanoMaximo == old(tamanoMaximo)
      ensures lecturaRecursiva == old(lecturaRecursiva) && contadorArchivos == old(contadorArchivos)
    {
      if tamanoMin > 0 && tamanoMax > tamanoMin {
        tamanoMinimo := tamanoMin;
        tamanoMaximo := tamanoMax;
      }
    }

    method ConfigurarLecturaRecursiva(recursivo: bool)
      modifies this
      ensures lecturaRecursiva == recursivo
      ensures tamanoMinimo == old(tamanoMinimo) && tamanoMaximo == old(tamanoMaximo)
      ensures contadorArchivos == old(contadorArchivos)
    {
      lecturaRecursiva := recursivo;
    }

    /** Zeroes the counter and keeps the configuration. */
    method ReiniciarContador()
      modifies this
      ensures contadorArchivos == 0
      ensures lecturaRecursiva == old(lecturaRecursiva)
      ensures tamanoMinimo == old(tamanoMinimo) && tamanoMaximo == old(tamanoMaximo)
    {
      contadorArchivos := 0;
    }
  }

  /** The size range a custom reader ends up with. */
  function RangoPersonalizado(tamanoMin: int, tamanoMax: int): (int, int)
  {
    (if tamanoMin > 0 then tamanoMin else TAMANO_MINIMO_DEFECTO,
     if tamanoMax > tamanoMin then tamanoMax else TAMANO_MAXIMO_DEFECTO)
  }

  /** Because the maximum is compared with the raw minimum, a non-positive
      minimum with a small positive maximum leaves the range inverted
      (1 KB up to 500 bytes), and no file size can pass it. A positive
      minimum always gives a non-empty range. */
  lemma RangoPersonalizadoInvertido()
    ensures RangoPersonalizado(0, 500) == (1024, 500)
    ensures forall min, max :: min > 0 ==> RangoPersonalizado(min, max).0 < RangoPersonalizado(min, max).1 || max <= min
  {
  }

  /** A positive minimum given with a larger maximum is kept as given, and
      otherwise a positive minimum is kept with the 1 MB default. */
  lemma RangoPersonalizadoPositivo(min: int, max: int)
    requires min > 0
    ensures RangoPersonalizado(min, max).0 == min
    ensures max > min ==> RangoPersonalizado(min, max).1 == max
    ensures min < TAMANO_MAXIMO_DEFECTO ==> RangoPersonalizado(min, max).0 < RangoPersonalizado(min, max).1
  {
  }

  predicate EsSeparadorRuta(c: char)
  {
    c == '\\' || c == '/'
  }

  /** Position of the last '.' of the last path component of `ruta[..n]`,
      or -1 when that component has none. */
  function UltimoPuntoEn(ruta: string, n: nat): (p: int)
    requires n <= |ruta|
    ensures -1 <= p < n
    ensures p >= 0 ==> ruta[p] == '.' && forall k :: p < k < n ==> ruta[k] != '.' && !EsSeparadorRuta(ruta[k])
    decreases n
  {
    if n == 0 then -1
    else if ruta[n - 1] == '.' then n - 1
    else if EsSeparadorRuta(ruta[n - 1]) then -1
    else UltimoPuntoEn(ruta, n - 1)
  }

  /** The extension test: a final '.' in the last component, not at the very
      end, followed by "txt" in any ASCII case. */
  predicate ExtensionTxt(ruta: string)
  {
    var p := UltimoPuntoEn(ruta, |ruta|);
    p != -1 && p < |ruta| - 1 && Minusculas(ruta[p..]) == ".txt"
  }

  /** Scans back from the end for a '.' and stops at a separator, then
      copies the extension and compares its lower-case form with ".txt". */
  method EsArchivoTexto(rutaArchivo: string) returns (b: bool)
    ensures b <==> ExtensionTxt(rutaArchivo)
    ensures rutaArchivo == "" ==> !b
  {
    if rutaArchivo == "" {
      return false;
    }
    var ultimoPunto := -1;
    var i := |rutaArchivo| - 1;
    while i >= 0
      invariant -1 <= i < |rutaArchivo|
      invariant UltimoPuntoEn(rutaArchivo, |rutaArchivo|) == UltimoPuntoEn(rutaArchivo, i + 1)
    {
      if rutaArchivo[i] == '.' {
        ultimoPunto := i;
        break;
      }
      if rutaArchivo[i] == '\\' || rutaArchivo[i] == '/' {
        break;
      }
      i := i - 1;
    }
    assert ultimoPunto == UltimoPuntoEn(rutaArchivo, |rutaArchivo|);
    if ultimoPunto == -1 || ultimoPunto >= |rutaArchivo| - 1 {
      return false;
    }
    var extension := "";
    for j := ultimoPunto to |rutaArchivo|
      invariant extension == rutaArchivo[ultimoPunto..j]
    {
      extension := extension + [rutaArchivo[j]];
    }
    var extensionMinuscula := ConvertirAMinusculas(extension);
    return extensionMinuscula == ".txt";
  }

  /** The reader's own ASCII lower-casing loop. */
  method ConvertirAMinusculas(texto: string) returns (resultado: string)
    ensures |resultado| == |texto|
    ensures forall i :: 0 <= i < |texto| ==>
      resultado[i] == if 'A' <= texto[i] <= 'Z' then (texto[i] as int + 32) as char else texto[i]
    ensures resultado == Minusculas(texto)
  {
    if texto == "" {
      return "";
    }
    resultado := "";
    for i := 0 to |texto|
      invariant resultado == Minusculas(texto[..i])
    {
      var c := texto[i];
      if 'A' <= c && c <= 'Z' {
        resultado := resultado + [(c as int + 32) as char];
      } else {
        resultado := resultado + [c];
      }
    }
    assert texto[..|texto|] == texto;
  }

  /** A directory path is accepted when it is non-empty and holds a ':'
      (a drive letter); the temporary file name the source builds is never
      used. */
  predicate ValidarRutaDirectorio(rutaDirectorio: string)
    ensures ValidarRutaDirectorio(rutaDirectorio) <==>
      exists i :: 0 <= i < |rutaDirectorio| && rutaDirectorio[i] == ':'
  {
    |rutaDirectorio| > 0 && ':' in rutaDirectorio
  }

  lemma ExtensionTxtEjemplos()
    ensures ExtensionTxt("c:\\docs\\a.TXT")
    ensures ExtensionTxt("notas.v2.txt")
    ensures !ExtensionTxt("c:\\docs.txt\\leeme")
    ensures !ExtensionTxt("archivo.")
    ensures !ExtensionTxt("")
  {
    assert UltimoPuntoEn("c:\\docs\\a.TXT", 13) == 9;
    assert Minusculas(".TXT") == ".txt";
    assert UltimoPuntoEn("notas.v2.txt", 12) == 8;
    assert UltimoPuntoEn("c:\\docs.txt\\leeme", 17) == -1;
  }

  /** Any path that passes the directory check is non-empty, a drive path
      passes it, and a path that passes keeps passing whatever is appended
      (a sub-directory, a file name). */
  lemma ValidarRutaDirectorioCasos(ruta: string, sufijo: string)
    ensures ValidarRutaDirectorio(ruta) ==> ruta != ""
    ensures ValidarRutaDirectorio(ruta) ==> ValidarRutaDirectorio(ruta + sufijo)
    ensures !ValidarRutaDirectorio("")
    ensures ValidarRutaDirectorio("c:")
    ensures !ValidarRutaDirectorio("/home/docs")
  {
    assert "c:"[1] == ':';
    if ValidarRutaDirectorio(ruta) {
      var i :| 0 <= i < |ruta| && ruta[i] == ':';
      assert (ruta + sufijo)[i] == ':';
    }
  }
}
