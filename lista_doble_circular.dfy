/** The generic circular doubly-linked list that backs every collection of
    the engine, and its one-cycle cursor.

    The nodes live in an arena: node `i` holds `datos[i]` and links to
    `siguientes[i]` and `anteriores[i]`; `cabeza` is the head node, `-1`
    standing for a null head. A removed node stays in the arena, unlinked.
    The ghost `Orden` lists the ring's nodes from the head, and `Contents`
    their data. Element comparison is Dafny equality (C# `Equals`). */
module Listas {
  import opened Comun

  /** Position after `k` on a ring of `n` positions. */
  function Sig(k: nat, n: nat): (r: nat)
    requires k < n
    ensures r < n
  {
    if k + 1 == n then 0 else k + 1
  }

  /** Position before `k` on a ring of `n` positions. */
  function Ant(k: nat, n: nat): (r: nat)
    requires k < n
    ensures r < n
  {
    if k == 0 then n - 1 else k - 1
  }

  /** The nodes of `orden` are distinct arena cells, each one's `siguiente`
      is the next ring position (the last links back to the first) and each
      one's `anterior` the previous one. */
  ghost predicate Anillo(orden: seq<nat>, sig: seq<int>, ant: seq<int>)
  {
    && (forall k :: 0 <= k < |orden| ==> orden[k] < |sig| && orden[k] < |ant|)
    && (forall i, j :: 0 <= i < j < |orden| ==> orden[i] != orden[j])
    && (forall k {:trigger sig[orden[k]]} :: 0 <= k < |orden| ==> sig[orden[k]] == orden[Sig(k, |orden|)])
    && (forall k {:trigger ant[orden[k]]} :: 0 <= k < |orden| ==> ant[orden[k]] == orden[Ant(k, |orden|)])
  }

  /** Ring position `k` of `orden`: an arena cell holding `contents[k]`
      that no later position holds again, linked to its ring neighbours. */
  ghost predicate Nodo<T>(orden: seq<nat>, sig: seq<int>, ant: seq<int>, datos: seq<T>, contents: seq<T>, k: nat)
  {
    && k < |orden| && k < |contents| && orden[k] < |sig| && orden[k] < |ant| && orden[k] < |datos|
    && datos[orden[k]] == contents[k]
    && sig[orden[k]] == orden[Sig(k, |orden|)]
    && ant[orden[k]] == orden[Ant(k, |orden|)]
    && orden[k] !in orden[k + 1..]
  }

  /** The ring from position `k` of `orden` on, one node at a time. Being
      recursive, it is unfolded one node deep unless a proof asks for
      more, which keeps the ring's quantifiers out of the proofs about the
      list's clients. */
  ghost predicate EnlazadaDesde<T>(orden: seq<nat>, sig: seq<int>, ant: seq<int>, datos: seq<T>, contents: seq<T>, k: nat)
    decreases |orden| - k
  {
    k >= |orden| || (Nodo(orden, sig, ant, datos, contents, k) && EnlazadaDesde(orden, sig, ant, datos, contents, k + 1))
  }

  lemma {:induction false} EnlazadaSi<T>(orden: seq<nat>, sig: seq<int>, ant: seq<int>, datos: seq<T>, contents: seq<T>, k: nat)
    ensures EnlazadaDesde(orden, sig, ant, datos, contents, k) <==>
      forall j :: k <= j < |orden| ==> Nodo(orden, sig, ant, datos, contents, j)
    decreases |orden| - k
  {
    if k < |orden| {
      EnlazadaSi(orden, sig, ant, datos, contents, k + 1);
    }
  }

  /** Every position being a `Nodo` is the ring with the data in order. */
  lemma AnilloSi<T>(orden: seq<nat>, sig: seq<int>, ant: seq<int>, datos: seq<T>, contents: seq<T>)
    requires |orden| == |contents|
    ensures (forall j :: 0 <= j < |orden| ==> Nodo(orden, sig, ant, datos, contents, j)) <==>
      (&& Anillo(orden, sig, ant)
       && (forall j :: 0 <= j < |orden| ==> orden[j] < |datos| && datos[orden[j]] == contents[j]))
  {
    if forall j :: 0 <= j < |orden| ==> Nodo(orden, sig, ant, datos, contents, j) {
      forall i, j | 0 <= i < j < |orden|
        ensures orden[i] != orden[j]
      {
        assert Nodo(orden, sig, ant, datos, contents, i);
        assert orden[i + 1..][j - i - 1] == orden[j];
      }
      forall j | 0 <= j < |orden|
        ensures orden[j] < |sig| && orden[j] < |ant| && orden[j] < |datos| && datos[orden[j]] == contents[j]
        ensures sig[orden[j]] == orden[Sig(j, |orden|)] && ant[orden[j]] == orden[Ant(j, |orden|)]
      {
        assert Nodo(orden, sig, ant, datos, contents, j);
      }
    }
    if Anillo(orden, sig, ant) && (forall j :: 0 <= j < |orden| ==> orden[j] < |datos| && datos[orden[j]] == contents[j]) {
      forall j | 0 <= j < |orden|
        ensures Nodo(orden, sig, ant, datos, contents, j)
      {
        var resto := orden[j + 1..];
        forall m | 0 <= m < |resto|
          ensures resto[m] != orden[j]
        {
          assert resto[m] == orden[j + 1 + m];
        }
        assert sig[orden[j]] == orden[Sig(j, |orden|)];
        assert ant[orden[j]] == orden[Ant(j, |orden|)];
      }
    }
  }

  /** Unlinking the node at ring position `k` (its predecessor now points to
      its successor and back) leaves a ring of the other nodes. */
  lemma AnilloSinNodo(orden: seq<nat>, sig: seq<int>, ant: seq<int>, k: nat)
    requires Anillo(orden, sig, ant) && |orden| > 1 && k < |orden|
    ensures Anillo(SinPosicion(orden, k),
                   sig[orden[Ant(k, |orden|)] := orden[Sig(k, |orden|)]],
                   ant[orden[Sig(k, |orden|)] := orden[Ant(k, |orden|)]])
  {
    SinNodoAcotado(orden, sig, ant, k);
    SinPosicionDistintos(orden, k);
    SinNodoEnlaces(orden, sig, ant, k);
  }

  lemma SinNodoAcotado(orden: seq<nat>, sig: seq<int>, ant: seq<int>, k: nat)
    requires Anillo(orden, sig, ant) && |orden| > 1 && k < |orden|
    ensures var o := SinPosicion(orden, k);
      forall m :: 0 <= m < |o| ==> o[m] < |sig| && o[m] < |ant|
  {
    var o := SinPosicion(orden, k);
    forall m | 0 <= m < |o|
      ensures o[m] < |sig| && o[m] < |ant|
    {
      assert o[m] == orden[if m < k then m else m + 1];
    }
  }

  lemma SinNodoEnlaces(orden: seq<nat>, sig: seq<int>, ant: seq<int>, k: nat)
    requires Anillo(orden, sig, ant) && |orden| > 1 && k < |orden|
    ensures var n := |orden|; var o := SinPosicion(orden, k);
      var sig', ant' := sig[orden[Ant(k, n)] := orden[Sig(k, n)]], ant[orden[Sig(k, n)] := orden[Ant(k, n)]];
      forall m {:trigger o[m]} :: 0 <= m < n - 1 ==> sig'[o[m]] == o[Sig(m, n - 1)] && ant'[o[m]] == o[Ant(m, n - 1)]
  {
    var n := |orden|;
    var o := SinPosicion(orden, k);
    forall m | 0 <= m < n - 1
      ensures sig[orden[Ant(k, n)] := orden[Sig(k, n)]][o[m]] == o[Sig(m, n - 1)]
      ensures ant[orden[Sig(k, n)] := orden[Ant(k, n)]][o[m]] == o[Ant(m, n - 1)]
    {
      SinNodoSiguiente(orden, sig, ant, k, m);
      SinNodoAnterior(orden, sig, ant, k, m);
    }
  }

  /** The same, stated on the list's one-node-at-a-time form. */
  lemma EnlazadaSinNodo<T>(orden: seq<nat>, sig: seq<int>, ant: seq<int>, datos: seq<T>, contents: seq<T>, k: nat)
    requires |orden| == |contents| > 1 && k < |orden| && Anillo(orden, sig, ant)
    requires forall j :: 0 <= j < |orden| ==> orden[j] < |datos| && datos[orden[j]] == contents[j]
    ensures EnlazadaDesde(SinPosicion(orden, k),
                          sig[orden[Ant(k, |orden|)] := orden[Sig(k, |orden|)]],
                          ant[orden[Sig(k, |orden|)] := orden[Ant(k, |orden|)]],
                          datos, SinPosicion(contents, k), 0)
    ensures ant[orden[k]] == orden[Ant(k, |orden|)] && sig[orden[k]] == orden[Sig(k, |orden|)]
    ensures orden[k] == orden[0] <==> k == 0
    ensures SinPosicion(orden, k)[0] == if k == 0 then orden[Sig(k, |orden|)] else orden[0]
  {
    AnilloSinNodo(orden, sig, ant, k);
    DatosSinPosicion(orden, datos, contents, k);
    var o, c := SinPosicion(orden, k), SinPosicion(contents, k);
    var sig', ant' := sig[orden[Ant(k, |orden|)] := orden[Sig(k, |orden|)]], ant[orden[Sig(k, |orden|)] := orden[Ant(k, |orden|)]];
    AnilloSi(o, sig', ant', datos, c);
    EnlazadaSi(o, sig', ant', datos, c, 0);
  }

  lemma DatosSinPosicion<T>(orden: seq<nat>, datos: seq<T>, contents: seq<T>, k: nat)
    requires |orden| == |contents| && k < |orden|
    requires forall i :: 0 <= i < |orden| ==> orden[i] < |datos| && datos[orden[i]] == contents[i]
    ensures var o, c := SinPosicion(orden, k), SinPosicion(contents, k);
      forall i :: 0 <= i < |o| ==> o[i] < |datos| && datos[o[i]] == c[i]
  {
  }

  lemma SinPosicionDistintos(orden: seq<nat>, k: nat)
    requires k < |orden| && forall i, j :: 0 <= i < j < |orden| ==> orden[i] != orden[j]
    ensures var o := SinPosicion(orden, k); forall i, j :: 0 <= i < j < |o| ==> o[i] != o[j]
  {
    var o := SinPosicion(orden, k);
    forall i, j | 0 <= i < j < |o|
      ensures o[i] != o[j]
    {
      var oi, oj := if i < k then i else i + 1, if j < k then j else j + 1;
      assert o[i] == orden[oi] && o[j] == orden[oj] && oi < oj;
    }
  }

  lemma SinNodoSiguiente(orden: seq<nat>, sig: seq<int>, ant: seq<int>, k: nat, m: nat)
    requires Anillo(orden, sig, ant) && |orden| > 1 && k < |orden| && m < |orden| - 1
    ensures var n := |orden|; var o := SinPosicion(orden, k);
      sig[orden[Ant(k, n)] := orden[Sig(k, n)]][o[m]] == o[Sig(m, n - 1)]
  {
    var n := |orden|;
    var o := SinPosicion(orden, k);
    var om := if m < k then m else m + 1;
    assert o[m] == orden[om];
    if om == Ant(k, n) {
      if k == n - 1 {
        assert o[0] == orden[0];
      } else if k == 0 {
        assert o[0] == orden[1];
      } else {
        assert o[m + 1] == orden[k + 1];
      }
    } else {
      assert orden[om] != orden[Ant(k, n)];
      assert sig[orden[om]] == orden[Sig(om, n)];
      if m == n - 2 {
        assert o[0] == orden[Sig(om, n)];
      } else {
        assert o[m + 1] == orden[Sig(om, n)];
      }
    }
  }

  lemma SinNodoAnterior(orden: seq<nat>, sig: seq<int>, ant: seq<int>, k: nat, m: nat)
    requires Anillo(orden, sig, ant) && |orden| > 1 && k < |orden| && m < |orden| - 1
    ensures var n := |orden|; var o := SinPosicion(orden, k);
      ant[orden[Sig(k, n)] := orden[Ant(k, n)]][o[m]] == o[Ant(m, n - 1)]
  {
    var n := |orden|;
    var o := SinPosicion(orden, k);
    var om := if m < k then m else m + 1;
    assert o[m] == orden[om];
    if om == Sig(k, n) {
      if k == 0 {
        assert o[n - 2] == orden[n - 1];
      } else if k == n - 1 {
        assert o[n - 2] == orden[n - 2];
      } else {
        assert o[m - 1] == orden[k - 1];
      }
    } else {
      assert orden[om] != orden[Sig(k, n)];
      assert ant[orden[om]] == orden[Ant(om, n)];
      if m == 0 {
        assert o[n - 2] == orden[Ant(om, n)];
      } else {
        assert o[m - 1] == orden[Ant(om, n)];
      }
    }
  }

  /** The splice of `AnilloConNodo`, stated on the list's one-node-at-a-time
      form, with the new node holding `x`. */
  lemma EnlazadaConNodo<T>(orden: seq<nat>, sig: seq<int>, ant: seq<int>, datos: seq<T>, contents: seq<T>, x: T)
    requires Anillo(orden, sig, ant) && |orden| == |contents| > 0 && |datos| == |sig| == |ant|
    requires forall j :: 0 <= j < |orden| ==> orden[j] < |datos| && datos[orden[j]] == contents[j]
    ensures EnlazadaDesde(orden + [|datos|],
                          sig[orden[|orden| - 1] := |datos|] + [orden[0]],
                          ant[orden[0] := |datos|] + [orden[|orden| - 1]],
                          datos + [x], contents + [x], 0)
    ensures ant[orden[0]] == orden[|orden| - 1]
  {
    var n, nuevo := |orden|, |datos|;
    AnilloConNodo(orden, sig, ant, nuevo);
    var o, d, c := orden + [nuevo], datos + [x], contents + [x];
    var sig', ant' := sig[orden[n - 1] := nuevo] + [orden[0]], ant[orden[0] := nuevo] + [orden[n - 1]];
    forall j | 0 <= j < |o|
      ensures o[j] < |d| && d[o[j]] == c[j]
    {
      if j < n {
        assert o[j] == orden[j] && c[j] == contents[j];
      }
    }
    AnilloSi(o, sig', ant', d, c);
    EnlazadaSi(o, sig', ant', d, c, 0);
  }

  /** Linking a fresh arena cell `nuevo` between the last node and the first
      extends the ring by one position at its end. */
  lemma AnilloConNodo(orden: seq<nat>, sig: seq<int>, ant: seq<int>, nuevo: nat)
    requires Anillo(orden, sig, ant) && |orden| > 0 && nuevo == |sig| == |ant|
    ensures Anillo(orden + [nuevo],
                   sig[orden[|orden| - 1] := nuevo] + [orden[0]],
                   ant[orden[0] := nuevo] + [orden[|orden| - 1]])
  {
    var n := |orden|;
    var o := orden + [nuevo];
    var sig' := sig[orden[n - 1] := nuevo] + [orden[0]];
    var ant' := ant[orden[0] := nuevo] + [orden[n - 1]];
    assert forall m :: 0 <= m < n + 1 ==> o[m] < |sig'| && o[m] < |ant'|;
    forall i, j | 0 <= i < j < n + 1
      ensures o[i] != o[j]
    {
      if j == n {
        assert o[i] == orden[i] < |sig|;
      } else {
        assert o[i] == orden[i] && o[j] == orden[j];
      }
    }
    forall m | 0 <= m < n + 1
      ensures sig'[o[m]] == o[Sig(m, n + 1)]
      ensures ant'[o[m]] == o[Ant(m, n + 1)]
    {
      ConNodoSiguiente(orden, sig, ant, nuevo, m);
      ConNodoAnterior(orden, sig, ant, nuevo, m);
    }
  }

  lemma ConNodoSiguiente(orden: seq<nat>, sig: seq<int>, ant: seq<int>, nuevo: nat, m: nat)
    requires Anillo(orden, sig, ant) && |orden| > 0 && nuevo == |sig| == |ant| && m <= |orden|
    ensures (sig[orden[|orden| - 1] := nuevo] + [orden[0]])[(orden + [nuevo])[m]]
         == (orden + [nuevo])[Sig(m, |orden| + 1)]
  {
    var n := |orden|;
    if m < n - 1 {
      assert orden[m] != orden[n - 1];
      assert sig[orden[m]] == orden[m + 1];
    }
  }

  lemma ConNodoAnterior(orden: seq<nat>, sig: seq<int>, ant: seq<int>, nuevo: nat, m: nat)
    requires Anillo(orden, sig, ant) && |orden| > 0 && nuevo == |sig| == |ant| && m <= |orden|
    ensures (ant[orden[0] := nuevo] + [orden[|orden| - 1]])[(orden + [nuevo])[m]]
         == (orden + [nuevo])[Ant(m, |orden| + 1)]
  {
    var n := |orden|;
    if 0 < m < n {
      assert orden[m] != orden[0];
      assert ant[orden[m]] == orden[m - 1];
    }
  }

  class ListaDobleCircular<T(==)> {
    var datos: seq<T>
    var siguientes: seq<int>
    var anteriores: seq<int>
    var cabeza: int

    ghost var Contents: seq<T>
    ghost var Orden: seq<nat>

    /** The ring invariant, and the data of the ring's nodes in order. */
    ghost predicate Valid()
      reads this
    {
      && |siguientes| == |datos|
      && |anteriores| == |datos|
      && |Orden| == |Contents|
      && EnlazadaDesde(Orden, siguientes, anteriores, datos, Contents, 0)
      && (if |Orden| == 0 then cabeza == -1 else cabeza == Orden[0])
    }

    /** `Valid` with the ring stated for all positions at once. */
    ghost predicate Abierta()
      reads this
    {
      && |siguientes| == |datos|
      && |anteriores| == |datos|
      && |Orden| == |Contents|
      && Anillo(Orden, siguientes, anteriores)
      && (forall k :: 0 <= k < |Orden| ==> datos[Orden[k]] == Contents[k])
      && (if |Orden| == 0 then cabeza == -1 else cabeza == Orden[0])
    }

    lemma Abrir()
      ensures Valid() <==> Abierta()
    {
      EnlazadaSi(Orden, siguientes, anteriores, datos, Contents, 0);
      if |Orden| == |Contents| {
        AnilloSi(Orden, siguientes, anteriores, datos, Contents);
      }
    }

    /** A new list has a null head. */
    constructor ()
      ensures Valid() && Contents == [] && cabeza == -1
    {
      datos, siguientes, anteriores := [], [], [];
      cabeza := -1;
      Contents, Orden := [], [];
    }

    function EstaVacia(): (b: bool)
      reads this
      requires Valid()
      ensures b <==> Contents == []
    {
      cabeza == -1
    }

    /** Appends before the head; the first node is linked to itself. */
    method Insertar(x: T)
      requires Valid()
      modifies this
      ensures Valid()
      ensures Contents == old(Contents) + [x]
      ensures old(Contents) != [] ==> cabeza == old(cabeza)
      ensures old(Contents) == [] ==> siguientes[cabeza] == cabeza && anteriores[cabeza] == cabeza
    {
      Abrir();
      var nuevo := |datos|;
      if cabeza == -1 {
        datos, siguientes, anteriores, cabeza, Orden, Contents :=
          datos + [x], siguientes + [nuevo], anteriores + [nuevo], nuevo, [nuevo], [x];
      } else {
        var ultimo := anteriores[cabeza];
        EnlazadaConNodo(Orden, siguientes, anteriores, datos, Contents, x);
        datos, siguientes, anteriores, Orden, Contents :=
          datos + [x], siguientes[ultimo := nuevo] + [cabeza], anteriores[cabeza := nuevo] + [ultimo],
          Orden + [nuevo], Contents + [x];
      }
    }

    /** First element equal to `x`, or `None` (C# `default(T)`). */
    method Buscar(x: T) returns (r: Option<T>)
      requires Valid()
      ensures r == if x in Contents then Some(x) else None
    {
      if cabeza == -1 {
        return None;
      }
      Abrir();
      var actual := cabeza;
      ghost var k := 0;
      while true
        invariant 0 <= k < |Orden| && actual == Orden[k]
        invariant x !in Contents[..k]
        decreases |Orden| - k
      {
        if datos[actual] == x {
          return Some(datos[actual]);
        }
        assert Contents[..k + 1] == Contents[..k] + [Contents[k]];
        actual := siguientes[actual];
        k := k + 1;
        if actual == cabeza {
          assert Contents[..k] == Contents;
          return None;
        }
      }
    }

    /** Replaces the first element equal to `viejo`, in place. */
    method Modificar(viejo: T, nuevo: T) returns (ok: bool)
      requires Valid()
      modifies this
      ensures Valid()
      ensures ok <==> viejo in old(Contents)
      ensures Contents == if ok then old(Contents)[PrimerIndice(old(Contents), viejo) := nuevo] else old(Contents)
      ensures cabeza == old(cabeza) && Orden == old(Orden)
    {
      if cabeza == -1 {
        return false;
      }
      Abrir();
      var actual := cabeza;
      ghost var k := 0;
      while true
        invariant 0 <= k < |Orden| && actual == Orden[k]
        invariant viejo !in Contents[..k]
        invariant Valid() && Abierta() && unchanged(this)
        decreases |Orden| - k
      {
        if datos[actual] == viejo {
          assert PrimerIndice(Contents, viejo) == k by {
            PrimerIndiceUnico(Contents, viejo, k);
          }
          datos := datos[actual := nuevo];
          Contents := Contents[k := nuevo];
          Abrir();
          return true;
        }
        assert Contents[..k + 1] == Contents[..k] + [Contents[k]];
        actual := siguientes[actual];
        k := k + 1;
        if actual == cabeza {
          assert Contents[..k] == Contents;
          return false;
        }
      }
    }

    /** Unlinks the first element equal to `x`. Removing the only node
        clears the head; removing the head moves it to its successor. */
    method Eliminar(x: T) returns (ok: bool)
      requires Valid()
      modifies this
      ensures Valid()
      ensures ok <==> x in old(Contents)
      ensures Contents == if ok then SinPosicion(old(Contents), PrimerIndice(old(Contents), x)) else old(Contents)
      ensures ok && |old(Contents)| == 1 ==> cabeza == -1
      ensures ok && |old(Contents)| > 1 && old(Contents[0]) == x ==> cabeza == old(siguientes[cabeza])
      ensures ok && old(Contents[0]) != x ==> cabeza == old(cabeza)
      ensures !ok ==> unchanged(this)
    {
      if cabeza == -1 {
        return false;
      }
      Abrir();
      var actual := cabeza;
      ghost var k := 0;
      while true
        invariant 0 <= k < |Orden| && actual == Orden[k]
        invariant x !in Contents[..k]
        invariant Valid() && Abierta() && unchanged(this)
        decreases |Orden| - k
      {
        if datos[actual] == x {
          assert PrimerIndice(Contents, x) == k by {
            PrimerIndiceUnico(Contents, x, k);
          }
          if siguientes[actual] == actual {
            assert Orden[Sig(k, |Orden|)] == Orden[k];
            assert |Orden| == 1;
            cabeza := -1;
            Orden, Contents := [], [];
            Abrir();
          } else {
            QuitarDelAnillo(actual, k);
          }
          return true;
        }
        assert Contents[..k + 1] == Contents[..k] + [Contents[k]];
        actual := siguientes[actual];
        k := k + 1;
        if actual == cabeza {
          assert Contents[..k] == Contents;
          return false;
        }
      }
    }

    /** The relinking step of `Eliminar` on a ring of two or more nodes. */
    method QuitarDelAnillo(actual: int, ghost k: nat)
      requires Abierta() && k < |Orden| && actual == Orden[k] && siguientes[actual] != actual
      modifies this
      ensures Valid()
      ensures Contents == SinPosicion(old(Contents), k) && Orden == SinPosicion(old(Orden), k)
      ensures k == 0 ==> cabeza == old(siguientes[cabeza])
      ensures k != 0 ==> cabeza == old(cabeza)
    {
      assert |Orden| > 1;
      EnlazadaSinNodo(Orden, siguientes, anteriores, datos, Contents, k);
      ghost var o := SinPosicion(Orden, k);
      var previo := anteriores[actual];
      var proximo := siguientes[actual];
      var nuevaCabeza := if actual == cabeza then proximo else cabeza;
      siguientes, anteriores, cabeza, Orden, Contents :=
        siguientes[previo := proximo], anteriores[proximo := previo], nuevaCabeza, o, SinPosicion(Contents, k);
    }

    /** Number of nodes, counted through one full cycle. */
    method Count() returns (n: int)
      requires Valid()
      ensures n == |Contents|
    {
      if EstaVacia() {
        return 0;
      }
      Abrir();
      var contador := 0;
      var actual := cabeza;
      while true
        invariant 0 <= contador < |Orden| && actual == Orden[contador]
        decreases |Orden| - contador
      {
        contador := contador + 1;
        actual := siguientes[actual];
        if actual == cabeza {
          return contador;
        }
      }
    }

    /** A cursor positioned on the head, before its first step. */
    method ObtenerIterator() returns (it: Iterator<T>)
      requires Valid()
      ensures fresh(it) && it.Valid() && it.lista == this
      ensures it.Elementos == Contents && it.Recorridos == 0
    {
      it := new Iterator(this);
    }

    /** Node reached from `i` after `k` steps along `siguiente`. */
    ghost function Avanzar(i: int, k: nat): int
      reads this
    {
      if k == 0 then i
      else
        var j := Avanzar(i, k - 1);
        if 0 <= j < |siguientes| then siguientes[j] else -1
    }

    lemma {:induction false} AvanzarDesdeCabeza(k: nat)
      requires Valid() && Contents != [] && k <= |Contents|
      ensures Avanzar(cabeza, k) == Orden[if k == |Contents| then 0 else k]
    {
      Abrir();
      if k > 0 {
        AvanzarDesdeCabeza(k - 1);
      }
    }

    /** Following `siguiente` from the head comes back to it after exactly
        `|Contents|` steps and not before; `anterior` undoes `siguiente`. */
    lemma AnilloCierra()
      requires Valid() && Contents != []
      ensures Avanzar(cabeza, |Contents|) == cabeza
      ensures forall k :: 0 < k < |Contents| ==> Avanzar(cabeza, k) != cabeza
      ensures Abierta()
      ensures forall k :: 0 <= k < |Contents| ==> anteriores[siguientes[Orden[k]]] == Orden[k]
    {
      Abrir();
      AvanzarDesdeCabeza(|Contents|);
      forall k | 0 < k < |Contents|
        ensures Avanzar(cabeza, k) != cabeza
      {
        AvanzarDesdeCabeza(k);
      }
    }
  }

  /** The one-cycle cursor of `Iterator.cs`. It keeps the list (whose arena
      holds the nodes), the head node and the current node, and stops once
      it is back on the head after leaving it. `Recorridos` counts the
      elements already yielded. */
  class Iterator<T(==)> {
    const lista: ListaDobleCircular<T>
    var cabeza: int
    var nodoActual: int
    var primerRecorrido: bool

    ghost var Elementos: seq<T>
    ghost var Recorridos: nat

    ghost predicate Valid()
      reads this, lista
    {
      && lista.Valid()
      && Elementos == lista.Contents
      && cabeza == lista.cabeza
      && Recorridos <= |Elementos|
      && (primerRecorrido <==> Recorridos == 0)
      && (Elementos != [] ==> nodoActual == lista.Orden[if Recorridos < |Elementos| then Recorridos else 0])
    }

    constructor (l: ListaDobleCircular<T>)
      requires l.Valid()
      ensures Valid() && lista == l && Elementos == l.Contents && Recorridos == 0
      ensures cabeza == l.cabeza && nodoActual == l.cabeza && primerRecorrido
    {
      lista := l;
      cabeza := l.cabeza;
      nodoActual := l.cabeza;
      primerRecorrido := true;
      Elementos := l.Contents;
      Recorridos := 0;
    }

    /** True until every element has been yielded once. */
    function TieneSiguiente(): (b: bool)
      reads this, lista
      requires Valid()
      ensures b <==> Recorridos < |Elementos|
    {
      lista.Abrir();
      if cabeza == -1 then false
      else if primerRecorrido then true
      else nodoActual != cabeza
    }

    /** Yields the current datum and steps to its successor; `None`
        (C# `default(T)`) once the cycle is complete. */
    method Siguiente() returns (r: Option<T>)
      requires Valid()
      modifies this
      ensures Valid() && Elementos == old(Elementos) && cabeza == old(cabeza)
      ensures old(Recorridos) < |Elementos| ==>
        && r == Some(Elementos[old(Recorridos)])
        && Recorridos == old(Recorridos) + 1
        && 0 <= old(nodoActual) < |lista.siguientes| && nodoActual == lista.siguientes[old(nodoActual)]
        && !primerRecorrido
      ensures old(Recorridos) == |Elementos| ==> r == None && unchanged(this)
    {
      if !TieneSiguiente() {
        return None;
      }
      lista.Abrir();
      var dato := lista.datos[nodoActual];
      nodoActual := lista.siguientes[nodoActual];
      primerRecorrido := false;
      Recorridos := Recorridos + 1;
      return Some(dato);
    }

    /** Back to the state the constructor left. */
    method Reiniciar()
      requires Valid()
      modifies this
      ensures Valid() && Elementos == old(Elementos) && cabeza == old(cabeza)
      ensures Recorridos == 0 && nodoActual == cabeza && primerRecorrido
    {
      nodoActual := cabeza;
      primerRecorrido := true;
      Recorridos := 0;
    }
  }

  /** One step of copying a list into an array through its cursor: the
      next element goes to position `i`. */
  method SiguienteEnArreglo<T(==)>(iterador: Iterator<T>, arreglo: array<T>, i: nat)
    requires iterador.Valid() && iterador.Recorridos == i < |iterador.Elementos| <= arreglo.Length
    requires arreglo[..i] == iterador.Elementos[..i]
    modifies iterador, arreglo
    ensures iterador.Valid() && iterador.Elementos == old(iterador.Elementos)
    ensures iterador.Recorridos == i + 1
    ensures arreglo[..i + 1] == iterador.Elementos[..i + 1]
  {
    var siguiente := iterador.Siguiente();
    arreglo[i] := siguiente.value;
    assert arreglo[..i + 1] == arreglo[..i] + [arreglo[i]];
    assert iterador.Elementos[..i + 1] == iterador.Elementos[..i] + [iterador.Elementos[i]];
  }

  /** A traversal (C# `Recorrer`) that records the counter at the first
      element equal to `x`: its position, or -1. */
  method PosicionEnLista<T(==)>(lista: ListaDobleCircular<T>, x: T) returns (encontrado: int)
    requires lista.Valid()
    ensures encontrado == Posicion(lista.Contents, x)
  {
    var posicion := 0;
    encontrado := -1;
    var iterador := lista.ObtenerIterator();
    while iterador.TieneSiguiente()
      invariant fresh(iterador) && iterador.Valid() && iterador.lista == lista
      invariant iterador.Elementos == lista.Contents && posicion == iterador.Recorridos
      invariant encontrado == Posicion(lista.Contents[..posicion], x)
      decreases |iterador.Elementos| - iterador.Recorridos
    {
      encontrado := PosicionSiguiente(iterador, x, posicion, encontrado);
      posicion := posicion + 1;
    }
    assert lista.Contents[..posicion] == lista.Contents;
  }

  /** The callback of `PosicionEnLista` on the next element. */
  method PosicionSiguiente<T(==)>(iterador: Iterator<T>, x: T, posicion: nat, encontrado: int) returns (nuevo: int)
    requires iterador.Valid() && posicion == iterador.Recorridos < |iterador.Elementos|
    requires encontrado == Posicion(iterador.Elementos[..posicion], x)
    modifies iterador
    ensures iterador.Valid() && iterador.Elementos == old(iterador.Elementos)
    ensures iterador.Recorridos == posicion + 1
    ensures nuevo == Posicion(iterador.Elementos[..posicion + 1], x)
  {
    var t := iterador.Siguiente();
    PosicionPaso(iterador.Elementos, posicion, x);
    nuevo := encontrado;
    if t.value == x && encontrado == -1 {
      nuevo := posicion;
    }
  }

  /** Extending a prefix by one element keeps an earlier first position. */
  lemma PosicionPaso<T>(s: seq<T>, i: nat, x: T)
    requires i < |s|
    ensures Posicion(s[..i + 1], x) ==
      if Posicion(s[..i], x) == -1 && s[i] == x then i else Posicion(s[..i], x)
  {
    var p := Posicion(s[..i], x);
    assert s[..i + 1] == s[..i] + [s[i]];
    if p != -1 {
      PrimerIndiceUnico(s[..i + 1], x, p);
      assert s[..i + 1][..p] == s[..i][..p];
    } else if s[i] == x {
      PrimerIndiceUnico(s[..i + 1], x, i);
    }
  }

  /** A traversal that keeps the element met when the counter equals
      `posicion`: that element, or `None` out of range. */
  method ElementoEnLista<T(==)>(lista: ListaDobleCircular<T>, posicion: int) returns (resultado: Option<T>)
    requires lista.Valid()
    ensures resultado == ElementoEn(lista.Contents, posicion)
  {
    resultado := None;
    var contador := 0;
    var iterador := lista.ObtenerIterator();
    while iterador.TieneSiguiente()
      invariant fresh(iterador) && iterador.Valid() && iterador.lista == lista
      invariant iterador.Elementos == lista.Contents && contador == iterador.Recorridos
      invariant resultado == if 0 <= posicion < contador then Some(lista.Contents[posicion]) else None
      decreases |iterador.Elementos| - iterador.Recorridos
    {
      var t := iterador.Siguiente();
      if contador == posicion {
        resultado := t;
      }
      contador := contador + 1;
    }
  }
}

