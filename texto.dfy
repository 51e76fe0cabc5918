/** Word-level string helpers used by the text pipeline: .NET's
    `Split(' ')` and the inverse operation, joining words with one space. */
module Texto {

  /** `s.Split(' ')`: the pieces between the spaces, empty pieces included
      (two adjacent spaces, or a space at either end, give an empty piece);
      the empty string splits into one empty piece. */
  function Partir(s: string): (r: seq<string>)
    ensures |r| >= 1
    ensures forall k :: 0 <= k < |r| ==> ' ' !in r[k]
  {
    if |s| == 0 then [""]
    else if s[0] == ' ' then [""] + Partir(s[1..])
    else
      var p := Partir(s[1..]);
      [[s[0]] + p[0]] + p[1..]
  }

  /** The words joined with a single space between consecutive ones. */
  function Unir(ws: seq<string>): string
  {
    if |ws| == 0 then ""
    else if |ws| == 1 then ws[0]
    else ws[0] + " " + Unir(ws[1..])
  }

  /** Every character of `s` satisfies `p`. */
  ghost predicate Sobre(s: string, p: char -> bool)
  {
    forall i :: 0 <= i < |s| ==> p(s[i])
  }

  /** No leading or trailing space and never two spaces in a row. */
  ghost predicate EspaciadoSimple(s: string)
  {
    (|s| > 0 ==> s[0] != ' ' && s[|s| - 1] != ' ') &&
    forall i :: 0 <= i < |s| - 1 ==> !(s[i] == ' ' && s[i + 1] == ' ')
  }

  /** Words that are non-empty and hold no space. */
  ghost predicate Palabras(ws: seq<string>)
  {
    forall k :: 0 <= k < |ws| ==> ws[k] != "" && ' ' !in ws[k]
  }

  /** Appending a word on the right, as a loop that builds the joined text does. */
  lemma {:induction false} UnirAgregar(ws: seq<string>, w: string)
    ensures Unir(ws + [w]) == if |ws| == 0 then w else Unir(ws) + " " + w
    decreases |ws|
  {
    if |ws| >= 2 {
      assert (ws + [w])[1..] == ws[1..] + [w];
      UnirAgregar(ws[1..], w);
    } else if |ws| == 1 {
      assert ws + [w] == [ws[0], w];
    }
  }

  lemma UnirPrimeraLetra(c: char, x: string, resto: seq<string>)
    ensures Unir([[c] + x] + resto) == [c] + Unir([x] + resto)
  {
    if |resto| > 0 {
      assert ([[c] + x] + resto)[1..] == resto;
      assert ([x] + resto)[1..] == resto;
    }
  }

  /** Joining the pieces of a split gives back the original text. */
  lemma {:induction false} UnirPartir(s: string)
    ensures Unir(Partir(s)) == s
    decreases |s|
  {
    if |s| == 0 {
    } else if s[0] == ' ' {
      UnirPartir(s[1..]);
      var p := Partir(s[1..]);
      assert ([""] + p)[1..] == p;
      assert Unir([""] + p) == " " + Unir(p);
      assert s == " " + s[1..];
    } else {
      UnirPartir(s[1..]);
      var p := Partir(s[1..]);
      assert p == [p[0]] + p[1..];
      UnirPrimeraLetra(s[0], p[0], p[1..]);
      assert s == [s[0]] + s[1..];
    }
  }

  /** A space splits the text in two independent halves. */
  lemma {:induction false} PartirConcat(a: string, b: string)
    ensures Partir(a + " " + b) == Partir(a) + Partir(b)
    decreases |a|
  {
    if |a| == 0 {
      assert a + " " + b == [' '] + b;
      assert (a + " " + b)[1..] == b;
    } else {
      assert (a + " " + b)[1..] == a[1..] + " " + b;
      PartirConcat(a[1..], b);
    }
  }

  lemma {:induction false} PartirSinEspacio(w: string)
    requires ' ' !in w
    ensures Partir(w) == [w]
    decreases |w|
  {
    if |w| > 0 {
      PartirSinEspacio(w[1..]);
      assert w == [w[0]] + w[1..];
    }
  }

  /** Splitting a joined list of space-free words gives back the words. */
  lemma {:induction false} PartirUnir(ws: seq<string>)
    requires |ws| > 0
    requires forall k :: 0 <= k < |ws| ==> ' ' !in ws[k]
    ensures Partir(Unir(ws)) == ws
    decreases |ws|
  {
    PartirSinEspacio(ws[0]);
    if |ws| > 1 {
      PartirUnir(ws[1..]);
      PartirConcat(ws[0], Unir(ws[1..]));
      assert ws == [ws[0]] + ws[1..];
    }
  }

  /** Joining non-empty space-free words yields single spacing, and an empty
      text only for no words. */
  lemma {:induction false} UnirPalabras(ws: seq<string>)
    requires Palabras(ws)
    ensures Unir(ws) == "" <==> ws == []
    ensures EspaciadoSimple(Unir(ws))
    decreases |ws|
  {
    if |ws| > 1 {
      UnirPalabras(ws[1..]);
      var a, b := ws[0], Unir(ws[1..]);
      var s := a + " " + b;
      assert ' ' !in a;
      assert |b| > 0 && b[0] != ' ' && b[|b| - 1] != ' ';
      forall i | 0 <= i < |s| - 1
        ensures !(s[i] == ' ' && s[i + 1] == ' ')
      {
        if i < |a| - 1 {
          assert s[i] == a[i];
        } else if i == |a| - 1 {
          assert s[i] == a[i];
        } else if i == |a| {
          assert s[i + 1] == b[0];
        } else {
          assert s[i] == b[i - |a| - 1] && s[i + 1] == b[i - |a|];
        }
      }
    }
  }

  /** The characters of the pieces all come from the text. */
  lemma {:induction false} PartirSobre(s: string, p: char -> bool)
    requires Sobre(s, p)
    ensures forall k :: 0 <= k < |Partir(s)| ==> Sobre(Partir(s)[k], p)
    decreases |s|
  {
    if |s| > 0 {
      PartirSobre(s[1..], p);
      var q := Partir(s[1..]);
      if s[0] != ' ' {
        assert Sobre(q[0], p);
        assert Sobre([s[0]] + q[0], p);
      }
    }
  }

  /** A joined text holds the characters of its words and spaces only. */
  lemma {:induction false} UnirSobre(ws: seq<string>, p: char -> bool)
    requires p(' ')
    requires forall k :: 0 <= k < |ws| ==> Sobre(ws[k], p)
    ensures Sobre(Unir(ws), p)
    decreases |ws|
  {
    if |ws| > 1 {
      UnirSobre(ws[1..], p);
      assert Sobre(ws[0], p);
    }
  }
}
