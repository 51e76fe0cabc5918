/** Text normalisation before indexing: ASCII lower-casing, removal of the
    Spanish accents, replacement of punctuation by single spaces, and
    removal of stopwords. Each step is a character (or word) loop that
    builds a new string; each is proved against a function that states
    its meaning. The stopword set is a parameter. */
module Normalizacion {
  import opened Texto

  // ---------------------------------------------------------------------
  // Characters

  predicate EsMayuscula(c: char)
  {
    'A' <= c <= 'Z'
  }

  /** ASCII lower-casing: 'A'..'Z' move up by 32, nothing else changes. */
  function Minuscula(c: char): (r: char)
    ensures EsMayuscula(c) ==> r as int == c as int + 32
    ensures !EsMayuscula(c) ==> r == c
    ensures !EsMayuscula(r)
  {
    if EsMayuscula(c) then (c as int + 32) as char else c
  }

  /** The six accented letters the normaliser knows. */
  predicate EsAcentuada(c: char)
  {
    c == 'á' || c == 'é' || c == 'í' || c == 'ó' || c == 'ú' || c == 'ñ'
  }

  function SinTilde(c: char): (r: char)
    ensures !EsAcentuada(r)
    ensures !EsAcentuada(c) ==> r == c
  {
    if c == 'á' then 'a'
    else if c == 'é' then 'e'
    else if c == 'í' then 'i'
    else if c == 'ó' then 'o'
    else if c == 'ú' then 'u'
    else if c == 'ñ' then 'n'
    else c
  }

  /** A letter or digit that survives punctuation cleaning. */
  predicate EsAlfanumerico(c: char)
  {
    ('a' <= c <= 'z') || ('0' <= c <= '9')
  }

  predicate AlfanumericoOEspacio(c: char)
  {
    EsAlfanumerico(c) || c == ' '
  }

  // ---------------------------------------------------------------------
  // The meaning of each step

  function Minusculas(t: string): (r: string)
    ensures |r| == |t|
    ensures forall i :: 0 <= i < |t| ==> r[i] == Minuscula(t[i])
  {
    seq(|t|, i requires 0 <= i < |t| => Minuscula(t[i]))
  }

  function SinTildes(t: string): (r: string)
    ensures |r| == |t|
    ensures forall i :: 0 <= i < |t| ==> r[i] == SinTilde(t[i])
  {
    seq(|t|, i requires 0 <= i < |t| => SinTilde(t[i]))
  }

  /** Punctuation cleaning of `t`, defined character by character from the
      left: letters and digits are kept, any other character adds a space
      unless the output is empty or already ends in one. */
  function Limpiar(t: string): (r: string)
    ensures |r| <= |t|
    ensures Sobre(r, AlfanumericoOEspacio)
    ensures |r| > 0 ==> r[0] != ' '
    ensures forall i :: 0 <= i < |r| - 1 ==> !(r[i] == ' ' && r[i + 1] == ' ')
    decreases |t|
  {
    if |t| == 0 then ""
    else
      var r := Limpiar(t[..|t| - 1]);
      var c := t[|t| - 1];
      if EsAlfanumerico(c) then r + [c]
      else if |r| > 0 && r[|r| - 1] != ' ' then r + " "
      else r
  }

  /** The letters and digits of a text, in order. */
  function Alfanumericos(t: string): (r: string)
    ensures Sobre(r, EsAlfanumerico)
    decreases |t|
  {
    if |t| == 0 then ""
    else Alfanumericos(t[..|t| - 1]) + (if EsAlfanumerico(t[|t| - 1]) then [t[|t| - 1]] else "")
  }

  /** A word the stopword list rejects: the lookup lower-cases the word
      first, and the empty word is never a stopword. */
  predicate EsStopword(w: string, stopwords: set<string>)
    ensures EsStopword(w, stopwords) ==> w != ""
  {
    w != "" && Minusculas(w) in stopwords
  }

  /** The lookup ignores capitals: a word is a stopword exactly when its
      lower-case form is. */
  lemma EsStopwordSinMayusculas(w: string, stopwords: set<string>)
    ensures EsStopword(w, stopwords) <==> EsStopword(Minusculas(w), stopwords)
  {
    MinusculasIdempotente(w);
  }

  /** The pieces that are neither empty nor stopwords, in order. */
  function Validas(ws: seq<string>, stopwords: set<string>): (r: seq<string>)
    ensures |r| <= |ws|
    ensures forall k :: 0 <= k < |r| ==> r[k] != "" && !EsStopword(r[k], stopwords) && r[k] in ws
    decreases |ws|
  {
    if |ws| == 0 then []
    else
      var w := ws[|ws| - 1];
      Validas(ws[..|ws| - 1], stopwords) + (if w != "" && !EsStopword(w, stopwords) then [w] else [])
  }

  lemma ValidasPaso(ws: seq<string>, i: nat, stopwords: set<string>)
    requires i < |ws|
    ensures Validas(ws[..i + 1], stopwords) == Validas(ws[..i], stopwords) +
      (if ws[i] != "" && !EsStopword(ws[i], stopwords) then [ws[i]] else [])
  {
    assert ws[..i + 1][..i] == ws[..i];
  }

  /** One more piece either leaves the joined survivors alone or appends
      it, after a space when something came before. */
  lemma SinStopwordsPaso(ws: seq<string>, i: nat, stopwords: set<string>)
    requires i < |ws|
    requires forall k :: 0 <= k < |ws| ==> ' ' !in ws[k]
    ensures var antes := Unir(Validas(ws[..i], stopwords));
      Unir(Validas(ws[..i + 1], stopwords)) ==
        if ws[i] != "" && !EsStopword(ws[i], stopwords)
        then (if antes != "" then antes + " " else antes) + ws[i]
        else antes
  {
    var antes := Validas(ws[..i], stopwords);
    ValidasPaso(ws, i, stopwords);
    ValidasPalabras(ws[..i], stopwords);
    if ws[i] != "" && !EsStopword(ws[i], stopwords) {
      UnirPalabras(antes);
      UnirAgregar(antes, ws[i]);
    } else {
      assert antes + [] == antes;
    }
  }

  /** The survivors of the pieces of a split are words. */
  lemma ValidasPalabras(ws: seq<string>, stopwords: set<string>)
    requires forall k :: 0 <= k < |ws| ==> ' ' !in ws[k]
    ensures Palabras(Validas(ws, stopwords))
  {
    var v := Validas(ws, stopwords);
    forall k | 0 <= k < |v|
      ensures ' ' !in v[k]
    {
      assert v[k] in ws;
    }
  }

  /** Stopword removal: the surviving words joined by single spaces. */
  function SinStopwords(t: string, stopwords: set<string>): string
  {
    if t == "" then "" else Unir(Validas(Partir(t), stopwords))
  }

  /** The whole pipeline; the empty text short-circuits to the empty text. */
  function Normalizado(t: string, stopwords: set<string>): string
  {
    if t == "" then ""
    else SinStopwords(Limpiar(SinTildes(Minusculas(t))), stopwords)
  }

  // ---------------------------------------------------------------------
  // The methods

  /** Normalises `texto` in four steps. */
  method NormalizarTexto(texto: string, stopwords: set<string>) returns (resultado: string)
    ensures resultado == Normalizado(texto, stopwords)
    ensures texto == "" ==> resultado == ""
  {
    if texto == "" {
      return "";
    }
    resultado := ConvertirAMinusculas(texto);
    resultado := EliminarTildes(resultado);
    resultado := LimpiarPuntuacion(resultado);
    resultado := EliminarStopwords(resultado, stopwords);
  }

  method ConvertirAMinusculas(texto: string) returns (resultado: string)
    ensures resultado == Minusculas(texto)
  {
    resultado := "";
    for i := 0 to |texto|
      invariant resultado == Minusculas(texto[..i])
    {
      var c := texto[i];
      if 'A' <= c && c <= 'Z' {
        resultado := resultado + [(c as int + 32) as char];
      } else {
        resultado := resultado + [c];
      }
    }
    assert texto[..|texto|] == texto;
  }

  method EliminarTildes(texto: string) returns (resultado: string)
    ensures resultado == SinTildes(texto)
  {
    resultado := "";
    for i := 0 to |texto|
      invariant resultado == SinTildes(texto[..i])
    {
      var c := texto[i];
      if c == 'á' { resultado := resultado + "a"; }
      else if c == 'é' { resultado := resultado + "e"; }
      else if c == 'í' { resultado := resultado + "i"; }
      else if c == 'ó' { resultado := resultado + "o"; }
      else if c == 'ú' { resultado := resultado + "u"; }
      else if c == 'ñ' { resultado := resultado + "n"; }
      else { resultado := resultado + [c]; }
    }
    assert texto[..|texto|] == texto;
  }

  method LimpiarPuntuacion(texto: string) returns (resultado: string)
    ensures resultado == Limpiar(texto)
  {
    resultado := "";
    for i := 0 to |texto|
      invariant resultado == Limpiar(texto[..i])
    {
      assert texto[..i + 1][..i] == texto[..i];
      var c := texto[i];
      if ('a' <= c && c <= 'z') || ('0' <= c && c <= '9') {
        resultado := resultado + [c];
      } else {
        if |resultado| > 0 && resultado[|resultado| - 1] != ' ' {
          resultado := resultado + " ";
        }
      }
    }
    assert texto[..|texto|] == texto;
  }

  /** One turn of the loop of `EliminarStopwords`: the `i`-th word is
      appended, after a space when the text so far is not empty, unless it
      is empty or a stopword. */
  method AgregarSiValida(resultado: string, palabras: seq<string>, i: nat, stopwords: set<string>)
    returns (siguiente: string)
    requires i < |palabras| && forall k :: 0 <= k < |palabras| ==> ' ' !in palabras[k]
    requires resultado == Unir(Validas(palabras[..i], stopwords))
    ensures siguiente == Unir(Validas(palabras[..i + 1], stopwords))
  {
    var palabra := palabras[i];
    SinStopwordsPaso(palabras, i, stopwords);
    siguiente := resultado;
    if palabra != "" && !EsStopword(palabra, stopwords) {
      if siguiente != "" {
        siguiente := siguiente + " ";
      }
      siguiente := siguiente + palabra;
    }
  }

  method EliminarStopwords(texto: string, stopwords: set<string>) returns (resultado: string)
    ensures resultado == SinStopwords(texto, stopwords)
  {
    if texto == "" {
      return "";
    }
    var palabras := Partir(texto);
    resultado := UnirValidas(palabras, stopwords);
  }

  /** The loop of `EliminarStopwords` over the words of the text. */
  method UnirValidas(palabras: seq<string>, stopwords: set<string>) returns (resultado: string)
    requires forall k :: 0 <= k < |palabras| ==> ' ' !in palabras[k]
    ensures resultado == Unir(Validas(palabras, stopwords))
  {
    resultado := "";
    for i := 0 to |palabras|
      invariant resultado == Unir(Validas(palabras[..i], stopwords))
    {
      resultado := AgregarSiValida(resultado, palabras, i, stopwords);
    }
    assert palabras[..|palabras|] == palabras;
  }

  // ---------------------------------------------------------------------
  // Properties

  /** Lower-casing twice is lower-casing once, and leaves no capital. */
  lemma MinusculasIdempotente(t: string)
    ensures Minusculas(Minusculas(t)) == Minusculas(t)
    ensures forall i :: 0 <= i < |t| ==> !EsMayuscula(Minusculas(t)[i])
  {
  }

  /** Accent stripping twice is accent stripping once. */
  lemma SinTildesIdempotente(t: string)
    ensures SinTildes(SinTildes(t)) == SinTildes(t)
  {
  }

  /** Cleaning keeps exactly the letters and digits of the input, in order. */
  lemma {:induction false} LimpiarConservaAlfanumericos(t: string)
    ensures Alfanumericos(Limpiar(t)) == Alfanumericos(t)
    decreases |t|
  {
    if |t| > 0 {
      var r := Limpiar(t[..|t| - 1]);
      LimpiarConservaAlfanumericos(t[..|t| - 1]);
      var c := t[|t| - 1];
      if EsAlfanumerico(c) {
        assert (r + [c])[..|r + [c]| - 1] == r;
      } else if |r| > 0 && r[|r| - 1] != ' ' {
        assert (r + " ")[..|r + " "| - 1] == r;
      }
    }
  }

  /** A clean text of letters, digits and spaces is left as it is by cleaning
      when it is already single-spaced. */
  lemma {:induction false} LimpiarFijo(t: string)
    requires Sobre(t, AlfanumericoOEspacio)
    requires |t| > 0 ==> t[0] != ' '
    requires forall i :: 0 <= i < |t| - 1 ==> !(t[i] == ' ' && t[i + 1] == ' ')
    ensures Limpiar(t) == t
    decreases |t|
  {
    if |t| > 0 {
      var p := t[..|t| - 1];
      assert forall i :: 0 <= i < |p| ==> p[i] == t[i];
      LimpiarFijo(p);
      assert t == p + [t[|t| - 1]];
    }
  }

  /** Stopword removal keeps the surviving words in their original order:
      splitting its output gives back exactly those words. */
  lemma SinStopwordsPalabras(t: string, stopwords: set<string>)
    requires SinStopwords(t, stopwords) != ""
    ensures Partir(SinStopwords(t, stopwords)) == Validas(Partir(t), stopwords)
  {
    PartirUnir(Validas(Partir(t), stopwords));
  }

  /** Stopword removal never leaves a leading, trailing or double space. */
  lemma SinStopwordsEspaciado(t: string, stopwords: set<string>)
    ensures EspaciadoSimple(SinStopwords(t, stopwords))
  {
    if t != "" {
      var v := Validas(Partir(t), stopwords);
      assert forall k :: 0 <= k < |v| ==> v[k] in Partir(t);
      UnirPalabras(v);
    }
  }

  /** The filter commutes with concatenation, which is why the words keep
      their order. */
  lemma {:induction false} ValidasConcat(a: seq<string>, b: seq<string>, stopwords: set<string>)
    ensures Validas(a + b, stopwords) == Validas(a, stopwords) + Validas(b, stopwords)
    decreases |b|
  {
    if |b| > 0 {
      var n := |b| - 1;
      assert (a + b)[..|a + b| - 1] == a + b[..n];
      ValidasConcat(a, b[..n], stopwords);
    } else {
      assert a + b == a;
    }
  }

  /** The normalised text is made of letters, digits and single spaces. */
  lemma NormalizadoForma(t: string, stopwords: set<string>)
    ensures Sobre(Normalizado(t, stopwords), AlfanumericoOEspacio)
    ensures EspaciadoSimple(Normalizado(t, stopwords))
  {
    if t != "" {
      var l := Limpiar(SinTildes(Minusculas(t)));
      SinStopwordsEspaciado(l, stopwords);
      if l != "" {
        PartirSobre(l, AlfanumericoOEspacio);
        var v := Validas(Partir(l), stopwords);
        assert forall k :: 0 <= k < |v| ==> v[k] in Partir(l);
        UnirSobre(v, AlfanumericoOEspacio);
      }
    }
  }

  /** Every word of a normalised text is a lower-case word outside the
      stopword list. */
  lemma NormalizadoSinStopwords(t: string, stopwords: set<string>)
    ensures forall w :: w in Partir(Normalizado(t, stopwords)) && Normalizado(t, stopwords) != "" ==>
      w != "" && w !in stopwords
  {
    var n := Normalizado(t, stopwords);
    if n != "" {
      var l := Limpiar(SinTildes(Minusculas(t)));
      SinStopwordsPalabras(l, stopwords);
      forall w | w in Partir(n)
        ensures w != "" && w !in stopwords
      {
        assert !EsStopword(w, stopwords);
        NormalizadoSobre(t, stopwords);
        PartirSobre(n, AlfanumericoOEspacio);
        MinusculasFijas(w);
      }
    }
  }

  lemma NormalizadoSobre(t: string, stopwords: set<string>)
    ensures Sobre(Normalizado(t, stopwords), AlfanumericoOEspacio)
  {
    NormalizadoForma(t, stopwords);
  }

  /** A word with no capital is its own lower-case form. */
  lemma MinusculasFijas(w: string)
    requires Sobre(w, AlfanumericoOEspacio)
    ensures Minusculas(w) == w
  {
  }
}
