/** Tokenisation of a normalised text: split on spaces, trim each piece,
    drop the empty ones, and return the rest in an array of exactly the
    right size (a counting pass, then a filling pass). */
module Tokenizacion {
  import opened Texto

  /** Number of leading spaces of `w`. */
  function Inicio(w: string): (a: nat)
    ensures a <= |w|
    ensures forall k :: 0 <= k < a ==> w[k] == ' '
    ensures a < |w| ==> w[a] != ' '
    decreases |w|
  {
    if |w| > 0 && w[0] == ' ' then 1 + Inicio(w[1..]) else 0
  }

  /** Length of `w` without its trailing spaces. */
  function Fin(w: string): (b: nat)
    ensures b <= |w|
    ensures forall k :: b <= k < |w| ==> w[k] == ' '
    ensures b > 0 ==> w[b - 1] != ' '
    decreases |w|
  {
    if |w| > 0 && w[|w| - 1] == ' ' then Fin(w[..|w| - 1]) else |w|
  }

  /** `w` without leading and trailing spaces; empty when `w` is all spaces. */
  function Recortar(w: string): (r: string)
    ensures r == "" <==> forall k :: 0 <= k < |w| ==> w[k] == ' '
    ensures r != "" ==> r[0] != ' ' && r[|r| - 1] != ' '
    ensures r != "" ==> r == w[Inicio(w)..Fin(w)]
  {
    if Inicio(w) == |w| then ""
    else
      assert w[Inicio(w)] != ' ';
      w[Inicio(w)..Fin(w)]
  }

  /** The trimmed pieces that are not empty, in order. */
  function Tokens(ws: seq<string>): (r: seq<string>)
    ensures |r| <= |ws|
    ensures forall k :: 0 <= k < |r| ==> r[k] != ""
    decreases |ws|
  {
    if |ws| == 0 then []
    else
      var w := Recortar(ws[|ws| - 1]);
      Tokens(ws[..|ws| - 1]) + (if w != "" then [w] else [])
  }

  /** The non-empty pieces, in order. */
  function NoVacias(ws: seq<string>): (r: seq<string>)
    decreases |ws|
  {
    if |ws| == 0 then []
    else NoVacias(ws[..|ws| - 1]) + (if ws[|ws| - 1] != "" then [ws[|ws| - 1]] else [])
  }

  /** The tokens of a text: none for the empty text. */
  function Tokenizado(texto: string): seq<string>
  {
    if texto == "" then [] else Tokens(Partir(texto))
  }

  /** Trims `palabra` by moving `inicio` forward and `fin` backward over
      spaces and copying what is between them. */
  method LimpiarPalabra(palabra: string) returns (resultado: string)
    ensures resultado == Recortar(palabra)
  {
    if palabra == "" {
      return "";
    }
    var inicio := 0;
    var fin := |palabra| - 1;
    while inicio <= fin && palabra[inicio] == ' '
      invariant 0 <= inicio <= |palabra|
      invariant fin == |palabra| - 1
      invariant forall k :: 0 <= k < inicio ==> palabra[k] == ' '
    {
      inicio := inicio + 1;
    }
    assert inicio == Inicio(palabra);
    while fin >= inicio && palabra[fin] == ' '
      invariant inicio - 1 <= fin <= |palabra| - 1
      invariant forall k :: fin < k < |palabra| ==> palabra[k] == ' '
    {
      fin := fin - 1;
    }
    if inicio > fin {
      return "";
    }
    assert fin + 1 == Fin(palabra);
    resultado := "";
    for i := inicio to fin + 1
      invariant resultado == palabra[inicio..i]
    {
      resultado := resultado + [palabra[i]];
    }
  }

  /** Splits `texto` on spaces and returns its non-empty trimmed pieces. */
  method TokenizarTexto(texto: string) returns (resultado: array<string>)
    ensures fresh(resultado)
    ensures resultado[..] == Tokenizado(texto)
    ensures texto == "" ==> resultado.Length == 0
  {
    if texto == "" {
      resultado := new string[0];
      return;
    }
    var palabras := Partir(texto);
    var contador := ContarTokens(palabras);
    resultado := new string[contador];
    LlenarTokens(palabras, resultado);
  }

  /** The counting pass: how many pieces are non-empty once trimmed. */
  method ContarTokens(palabras: seq<string>) returns (contador: nat)
    ensures contador == |Tokens(palabras)|
  {
    contador := 0;
    for i := 0 to |palabras|
      invariant contador == |Tokens(palabras[..i])|
    {
      TokensPaso(palabras, i);
      var palabra := LimpiarPalabra(palabras[i]);
      if palabra != "" {
        contador := contador + 1;
      }
    }
    assert palabras[..|palabras|] == palabras;
  }

  /** The filling pass: the trimmed non-empty pieces, in order, into an
      array the counting pass sized. */
  method LlenarTokens(palabras: seq<string>, resultado: array<string>)
    requires resultado.Length == |Tokens(palabras)|
    modifies resultado
    ensures resultado[..] == Tokens(palabras)
  {
    var indice: nat := 0;
    for i := 0 to |palabras|
      invariant Llenado(palabras, i, resultado, indice)
    {
      indice := LlenarPaso(palabras, i, resultado, indice);
    }
    assert palabras[..|palabras|] == palabras;
    assert resultado[..] == resultado[..indice];
  }

  /** The first `indice` cells of `resultado` hold the tokens of the first
      `i` pieces. */
  ghost predicate Llenado(palabras: seq<string>, i: nat, resultado: array<string>, indice: nat)
    reads resultado
  {
    i <= |palabras| && indice <= resultado.Length && resultado[..indice] == Tokens(palabras[..i])
  }

  /** The filling pass over the `i`-th piece. */
  method LlenarPaso(palabras: seq<string>, i: nat, resultado: array<string>, indice: nat)
    returns (siguiente: nat)
    requires i < |palabras| && resultado.Length == |Tokens(palabras)|
    requires Llenado(palabras, i, resultado, indice)
    modifies resultado
    ensures Llenado(palabras, i + 1, resultado, siguiente)
  {
    ghost var despues := Tokens(palabras[..i + 1]);
    TokensPaso(palabras, i);
    TokensPrefijo(palabras, i + 1);
    siguiente := ColocarToken(palabras[i], resultado, indice, Tokens(palabras[..i]));
    assert resultado[..siguiente] == despues;
  }

  /** One step of the filling pass: a piece, trimmed, goes to position
      `indice`, after the tokens `previos` already placed, unless it is empty. */
  method ColocarToken(pieza: string, resultado: array<string>, indice: nat, ghost previos: seq<string>)
    returns (siguiente: nat)
    requires indice == |previos| <= resultado.Length && resultado[..indice] == previos
    requires Recortar(pieza) != "" ==> indice < resultado.Length
    modifies resultado
    ensures siguiente <= resultado.Length
    ensures resultado[..siguiente] == previos + (if Recortar(pieza) != "" then [Recortar(pieza)] else [])
  {
    var palabra := LimpiarPalabra(pieza);
    siguiente := indice;
    if palabra != "" {
      resultado[indice] := palabra;
      assert resultado[..indice + 1] == resultado[..indice] + [palabra];
      siguiente := indice + 1;
    }
  }

  lemma TokensPaso(ws: seq<string>, i: nat)
    requires i < |ws|
    ensures Tokens(ws[..i + 1]) == Tokens(ws[..i]) +
      (if Recortar(ws[i]) != "" then [Recortar(ws[i])] else [])
    ensures Recortar(ws[i]) == "" ==> Tokens(ws[..i + 1]) == Tokens(ws[..i])
  {
    assert ws[..i + 1][..i] == ws[..i];
    assert Tokens(ws[..i]) + [] == Tokens(ws[..i]);
  }

  /** A prefix of the pieces never has more tokens than the whole, so the
      filling pass stays inside the array the counting pass sized. */
  lemma {:induction false} TokensPrefijo(ws: seq<string>, i: nat)
    requires i <= |ws|
    ensures |Tokens(ws[..i])| <= |Tokens(ws)|
    decreases |ws|
  {
    if i == |ws| {
      assert ws[..i] == ws;
    } else {
      var corto := ws[..|ws| - 1];
      TokensPrefijo(corto, i);
      assert corto[..i] == ws[..i];
    }
  }

  /** A word without spaces is left alone by trimming. */
  lemma RecortarSinEspacios(w: string)
    requires ' ' !in w
    ensures Recortar(w) == w
  {
    if w != "" {
      assert w[0] != ' ';
      assert w[|w| - 1] != ' ';
    }
  }

  /** Trimming twice is trimming once. */
  lemma RecortarIdempotente(w: string)
    ensures Recortar(Recortar(w)) == Recortar(w)
  {
    var r := Recortar(w);
    if r != "" {
      assert Inicio(r) == 0;
      assert Fin(r) == |r|;
    }
  }

  /** On the pieces of a split, which hold no spaces, the tokens are
      exactly the non-empty pieces. */
  lemma {:induction false} TokensDePiezas(ws: seq<string>)
    requires forall k :: 0 <= k < |ws| ==> ' ' !in ws[k]
    ensures Tokens(ws) == NoVacias(ws)
    decreases |ws|
  {
    if |ws| > 0 {
      TokensDePiezas(ws[..|ws| - 1]);
      RecortarSinEspacios(ws[|ws| - 1]);
    }
  }

  /** No token is empty or holds a space, and the tokens of a text are the
      non-empty pieces of splitting it on spaces, in order. */
  lemma TokenizadoSonPiezas(texto: string)
    ensures forall k :: 0 <= k < |Tokenizado(texto)| ==>
      Tokenizado(texto)[k] != "" && ' ' !in Tokenizado(texto)[k]
    ensures texto != "" ==> Tokenizado(texto) == NoVacias(Partir(texto))
  {
    if texto != "" {
      TokensDePiezas(Partir(texto));
      NoVaciasPalabras(Partir(texto));
    }
  }

  lemma {:induction false} NoVaciasPalabras(ws: seq<string>)
    requires forall k :: 0 <= k < |ws| ==> ' ' !in ws[k]
    ensures Palabras(NoVacias(ws))
    decreases |ws|
  {
    if |ws| > 0 {
      NoVaciasPalabras(ws[..|ws| - 1]);
    }
  }

  /** Tokens of a normalised text joined back with single spaces give the
      text itself. */
  lemma {:induction false} UnirTokens(texto: string)
    requires texto != ""
    requires EspaciadoSimple(texto)
    ensures Unir(Tokenizado(texto)) == texto
  {
    var p := Partir(texto);
    PiezasNoVacias(texto);
    TokenizadoSonPiezas(texto);
    NoVaciasIdentidad(p);
    UnirPartir(texto);
  }

  lemma {:induction false} NoVaciasIdentidad(ws: seq<string>)
    requires forall k :: 0 <= k < |ws| ==> ws[k] != ""
    ensures NoVacias(ws) == ws
    decreases |ws|
  {
    if |ws| > 0 {
      NoVaciasIdentidad(ws[..|ws| - 1]);
      assert ws == ws[..|ws| - 1] + [ws[|ws| - 1]];
    }
  }

  /** Every kept piece is one of the pieces. */
  lemma {:induction false} NoVaciasEnPiezas(ws: seq<string>, k: nat)
    requires k < |NoVacias(ws)|
    ensures NoVacias(ws)[k] in ws
    decreases |ws|
  {
    var p := ws[..|ws| - 1];
    if k < |NoVacias(p)| {
      NoVaciasEnPiezas(p, k);
      assert NoVacias(p)[k] in p;
    }
  }

  /** A single-spaced non-empty text splits into non-empty pieces. */
  lemma {:induction false} PiezasNoVacias(s: string)
    requires s != ""
    requires EspaciadoSimple(s)
    ensures forall k :: 0 <= k < |Partir(s)| ==> Partir(s)[k] != ""
    decreases |s|
  {
    assert s[0] != ' ';
    var t := s[1..];
    if t == "" {
    } else if t[0] == ' ' {
      var u := t[1..];
      assert u != "" by { assert |s| >= 3; }
      assert u[0] == s[2] && s[2] != ' ';
      assert EspaciadoSimple(u) by {
        assert forall i :: 0 <= i < |u| ==> u[i] == s[i + 2];
      }
      PiezasNoVacias(u);
      assert ([""] + Partir(u))[1..] == Partir(u);
    } else {
      assert EspaciadoSimple(t) by {
        assert forall i :: 0 <= i < |t| ==> t[i] == s[i + 1];
      }
      PiezasNoVacias(t);
    }
  }
}
