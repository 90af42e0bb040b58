/** The profile list of a user as the services change it: adding and removing
    requested profiles in place, and the defaulting and canonicalisation done
    before every save. Profile equality is value equality, as `List.contains`
    and `List.remove` use it. */
module ProfileLists {
  import opened Results
  import opened Models
  import opened Collaborators

  /** No profile occurs twice. */
  predicate Distinct(l: seq<Perfil>) {
    forall i, j :: 0 <= i < j < |l| ==> l[i] != l[j]
  }

  /** The elements of `l` outside `q`, in their original order. */
  function Without(l: seq<Perfil>, q: set<Perfil>): (r: seq<Perfil>)
    ensures forall p :: p in r <==> p in l && p !in q
    ensures |r| <= |l|
  {
    if l == [] then [] else (if l[0] in q then [] else [l[0]]) + Without(l[1..], q)
  }

  /** The first occurrence of each element of `l`, in the order of `l`. */
  function Firsts(l: seq<Perfil>): (r: seq<Perfil>)
    ensures forall p :: p in r <==> p in l
    ensures Distinct(r)
    decreases |l|
  {
    if l == [] then []
    else
      var rest := Firsts(Without(l[1..], {l[0]}));
      assert l[0] !in rest;
      [l[0]] + rest
  }

  /** `adicionarPerfis`: each requested profile the list does not yet contain is
      appended once. */
  function Add(lista: seq<Perfil>, perfis: seq<Perfil>): (r: seq<Perfil>)
    ensures |lista| <= |r| && r[..|lista|] == lista
    ensures forall p :: p in r <==> p in lista || p in perfis
    ensures forall i :: |lista| <= i < |r| ==> r[i] in perfis && r[i] !in lista
    ensures forall i, j :: |lista| <= i < j < |r| ==> r[i] != r[j]
    decreases |perfis|
  {
    if perfis == [] then lista
    else Add(if perfis[0] in lista then lista else lista + [perfis[0]], perfis[1..])
  }

  /** `List.remove(Object)`: drops the first occurrence, if any. */
  function RemoveFirst(l: seq<Perfil>, x: Perfil): (r: seq<Perfil>)
    ensures x !in l ==> r == l
    ensures x in l ==> |r| == |l| - 1
    ensures multiset(r) == multiset(l) - multiset{x}
    ensures forall p :: p in r ==> p in l
    ensures forall p :: p in l && p != x ==> p in r
  {
    if l == [] then []
    else
      assert l == [l[0]] + l[1..];
      if l[0] == x then l[1..] else [l[0]] + RemoveFirst(l[1..], x)
  }

  /** `removerPerfis`: each requested profile the list contains loses one
      occurrence, in request order. */
  function Remove(lista: seq<Perfil>, perfis: seq<Perfil>): (r: seq<Perfil>)
    ensures forall p :: p in r ==> p in lista
    ensures forall p :: p in lista && p !in perfis ==> p in r
    ensures |r| <= |lista|
    decreases |perfis|
  {
    if perfis == [] then lista
    else Remove(if perfis[0] in lista then RemoveFirst(lista, perfis[0]) else lista, perfis[1..])
  }

  /** Each profile replaced by the registry's copy, position by position. */
  function Canonical(registry: Perfil -> Perfil, l: seq<Perfil>): (r: seq<Perfil>)
    ensures |r| == |l|
    ensures forall i :: 0 <= i < |l| ==> r[i] == registry(l[i])
  {
    if l == [] then [] else [registry(l[0])] + Canonical(registry, l[1..])
  }

  /** A new user starts with the `USUARIO` profile: a null or empty list becomes
      that single profile, any other list is kept. */
  function Defaulted(listaPerfis: Option<seq<Perfil>>): (r: seq<Perfil>)
    ensures |r| > 0
    ensures listaPerfis.Some? && listaPerfis.value != [] ==> r == listaPerfis.value
    ensures listaPerfis.None? || listaPerfis.value == [] ==> r == [Perfil(None, USUARIO)]
  {
    if listaPerfis.None? || listaPerfis.value == [] then [Perfil(None, USUARIO)] else listaPerfis.value
  }

  /** `vincularPerfisAoUsuario`: the defaulted list, canonicalised. */
  function Vincular(env: Env, listaPerfis: Option<seq<Perfil>>): (r: seq<Perfil>)
    ensures |r| == |Defaulted(listaPerfis)|
    ensures forall i :: 0 <= i < |r| ==> r[i] == env.registry(Defaulted(listaPerfis)[i])
  {
    Canonical(env.registry, Defaulted(listaPerfis))
  }

  /** The same on the entity, where only the profile list changes. */
  function VincularPerfis(env: Env, u: Usuario): (r: Usuario)
    ensures r.(listaPerfis := u.listaPerfis) == u
    ensures r.listaPerfis.Some? && |r.listaPerfis.value| == |Defaulted(u.listaPerfis)|
  {
    u.(listaPerfis := Some(Vincular(env, u.listaPerfis)))
  }

  /* ------------------------------------------------------------ properties */

  /** Adding profiles the list already holds changes nothing. */
  lemma {:induction false} AddPresentIsNoOp(lista: seq<Perfil>, perfis: seq<Perfil>)
    requires forall p :: p in perfis ==> p in lista
    ensures Add(lista, perfis) == lista
    decreases |perfis|
  {
    if perfis != [] {
      assert perfis[0] in lista;
      AddPresentIsNoOp(lista, perfis[1..]);
    }
  }

  /** Adding the same request twice is adding it once. */
  lemma AddIdempotent(lista: seq<Perfil>, perfis: seq<Perfil>)
    ensures Add(Add(lista, perfis), perfis) == Add(lista, perfis)
  {
    AddPresentIsNoOp(Add(lista, perfis), perfis);
  }

  /** Adding never introduces a duplicate, even when the request repeats itself. */
  lemma AddKeepsDistinct(lista: seq<Perfil>, perfis: seq<Perfil>)
    requires Distinct(lista)
    ensures Distinct(Add(lista, perfis))
  {
  }

  /** Filtering then taking first occurrences, one requested profile at a time. */
  lemma {:induction false} FirstsOfAbsentStep(x: Perfil, tail: seq<Perfil>, held: set<Perfil>)
    requires x !in held
    ensures Firsts(Without([x] + tail, held)) == [x] + Firsts(Without(tail, held + {x}))
  {
    var w := Without(tail, held);
    assert ([x] + tail)[1..] == tail;
    assert Without([x] + tail, held) == [x] + w;
    assert ([x] + w)[1..] == w;
    WithoutTwice(tail, held, {x});
  }

  /** What adding appends is the request's first occurrences of the profiles
      the list does not hold, in request order. */
  lemma {:induction false} AddAppendsFirstsOfAbsent(lista: seq<Perfil>, perfis: seq<Perfil>)
    ensures Add(lista, perfis) == lista + Firsts(Without(perfis, set p | p in lista))
    decreases |perfis|
  {
    var held := set p | p in lista;
    if perfis == [] {
      assert Without(perfis, held) == [];
    } else {
      var x := perfis[0];
      var tail := perfis[1..];
      assert perfis == [x] + tail;
      if x in lista {
        AddAppendsFirstsOfAbsent(lista, tail);
        assert Without(perfis, held) == Without(tail, held);
      } else {
        var lista' := lista + [x];
        assert Add(lista, perfis) == Add(lista', tail);
        assert (set p | p in lista') == held + {x} by {
          forall p ensures p in lista' <==> p in lista || p == x {
            assert p in lista' <==> p in lista || p in [x];
          }
        }
        AddAppendsFirstsOfAbsent(lista', tail);
        FirstsOfAbsentStep(x, tail, held);
        var f := Firsts(Without(tail, held + {x}));
        assert lista' + f == lista + ([x] + f);
      }
    }
  }

  /** Removing a profile the list does not hold changes nothing. */
  lemma {:induction false} RemoveAbsentIsNoOp(lista: seq<Perfil>, perfis: seq<Perfil>)
    requires forall p :: p in perfis ==> p !in lista
    ensures Remove(lista, perfis) == lista
    decreases |perfis|
  {
    if perfis != [] {
      assert perfis[0] !in lista;
      RemoveAbsentIsNoOp(lista, perfis[1..]);
    }
  }

  lemma {:induction false} WithoutRemoveFirst(l: seq<Perfil>, x: Perfil, q: set<Perfil>)
    requires x in q
    ensures Without(RemoveFirst(l, x), q) == Without(l, q)
    decreases |l|
  {
    if l != [] && l[0] != x {
      WithoutRemoveFirst(l[1..], x, q);
      assert RemoveFirst(l, x)[1..] == RemoveFirst(l[1..], x);
    }
  }

  /** The profiles outside a set covering the request survive a removal, in
      their original order and number. */
  lemma {:induction false} RemoveKeepsUnrequested(lista: seq<Perfil>, perfis: seq<Perfil>, q: set<Perfil>)
    requires forall p :: p in perfis ==> p in q
    ensures Without(Remove(lista, perfis), q) == Without(lista, q)
    decreases |perfis|
  {
    if perfis != [] {
      var next := if perfis[0] in lista then RemoveFirst(lista, perfis[0]) else lista;
      if perfis[0] in lista {
        WithoutRemoveFirst(lista, perfis[0], q);
      }
      RemoveKeepsUnrequested(next, perfis[1..], q);
    }
  }

  lemma {:induction false} RemoveFirstDistinct(l: seq<Perfil>, x: Perfil)
    requires Distinct(l)
    ensures RemoveFirst(l, x) == Without(l, {x})
    decreases |l|
  {
    if l != [] {
      if l[0] == x {
        assert Distinct(l[1..]);
        assert x !in l[1..];
        WithoutNoOp(l[1..], {x});
      } else {
        assert Distinct(l[1..]);
        RemoveFirstDistinct(l[1..], x);
      }
    }
  }

  lemma {:induction false} WithoutNoOp(l: seq<Perfil>, q: set<Perfil>)
    requires forall p :: p in l ==> p !in q
    ensures Without(l, q) == l
    decreases |l|
  {
    if l != [] {
      WithoutNoOp(l[1..], q);
      assert l == [l[0]] + l[1..];
    }
  }

  lemma {:induction false} WithoutKeepsDistinct(l: seq<Perfil>, q: set<Perfil>)
    requires Distinct(l)
    ensures Distinct(Without(l, q))
    decreases |l|
  {
    if l != [] {
      assert Distinct(l[1..]);
      WithoutKeepsDistinct(l[1..], q);
      assert l[0] !in l[1..];
    }
  }

  lemma {:induction false} WithoutTwice(l: seq<Perfil>, a: set<Perfil>, b: set<Perfil>)
    ensures Without(Without(l, a), b) == Without(l, a + b)
    decreases |l|
  {
    if l != [] {
      WithoutTwice(l[1..], a, b);
      var w := Without(l[1..], a);
      if l[0] in a {
        assert Without(l, a) == w;
        assert Without(l, a + b) == Without(l[1..], a + b);
      } else {
        assert Without(l, a) == [l[0]] + w;
        assert ([l[0]] + w)[1..] == w;
        assert Without([l[0]] + w, b) == (if l[0] in b then [] else [l[0]]) + Without(w, b);
      }
    }
  }

  /** Removing is multiset difference: each request takes away one occurrence,
      so a list holding a profile twice keeps one copy after one request. */
  lemma {:induction false} RemoveMultiset(lista: seq<Perfil>, perfis: seq<Perfil>)
    ensures multiset(Remove(lista, perfis)) == multiset(lista) - multiset(perfis)
    decreases |perfis|
  {
    if perfis == [] {
      assert multiset(perfis) == multiset{};
    } else {
      var x := perfis[0];
      var next := if x in lista then RemoveFirst(lista, x) else lista;
      assert multiset(next) == multiset(lista) - multiset{x};
      RemoveMultiset(next, perfis[1..]);
      assert perfis == [x] + perfis[1..];
      assert multiset(perfis) == multiset{x} + multiset(perfis[1..]);
      DifferenceTwice(multiset(lista), multiset{x}, multiset(perfis[1..]));
    }
  }

  /** Taking away two multisets in turn is taking away their sum. */
  lemma DifferenceTwice(a: multiset<Perfil>, x: multiset<Perfil>, y: multiset<Perfil>)
    ensures (a - x) - y == a - (x + y)
  {
  }

  /** On a list without duplicates, removal is the order-preserving filter by
      the requested set. */
  lemma {:induction false} RemoveDistinctIsFilter(lista: seq<Perfil>, perfis: seq<Perfil>)
    requires Distinct(lista)
    ensures Remove(lista, perfis) == Without(lista, set p | p in perfis)
    decreases |perfis|
  {
    if perfis == [] {
      assert (set p | p in perfis) == {};
      WithoutNoOp(lista, {});
    } else {
      var x := perfis[0];
      var next := if x in lista then RemoveFirst(lista, x) else lista;
      var rest := set p | p in perfis[1..];
      assert (set p | p in perfis) == {x} + rest;
      if x in lista {
        RemoveFirstDistinct(lista, x);
      } else {
        WithoutNoOp(lista, {x});
      }
      assert next == Without(lista, {x});
      WithoutKeepsDistinct(lista, {x});
      RemoveDistinctIsFilter(next, perfis[1..]);
      WithoutTwice(lista, {x}, rest);
    }
  }

  /** Canonicalisation keeps every profile's name. */
  lemma CanonicalKeepsNames(env: Env, l: seq<Perfil>)
    requires WellFormed(env)
    ensures |Canonical(env.registry, l)| == |l|
    ensures forall i :: 0 <= i < |l| ==> Canonical(env.registry, l)[i].nome == l[i].nome
  {
  }

  /** With a registry that answers by name, linking an already linked list is
      the identity on it. */
  lemma VincularIdempotent(env: Env, listaPerfis: Option<seq<Perfil>>)
    requires WellFormed(env) && RegistryByName(env)
    ensures Vincular(env, Some(Vincular(env, listaPerfis))) == Vincular(env, listaPerfis)
  {
  }

  /** A user with no profile is linked to exactly the registry's `USUARIO`
      profile; any other list keeps its length and names. */
  lemma VincularDefaults(env: Env, listaPerfis: Option<seq<Perfil>>)
    requires WellFormed(env)
    ensures listaPerfis.None? || listaPerfis.value == [] ==>
              Vincular(env, listaPerfis) == [env.registry(Perfil(None, USUARIO))]
              && Vincular(env, listaPerfis)[0].nome == USUARIO
    ensures listaPerfis.Some? && listaPerfis.value != [] ==>
              |Vincular(env, listaPerfis)| == |listaPerfis.value|
              && forall i :: 0 <= i < |listaPerfis.value| ==> Vincular(env, listaPerfis)[i].nome == listaPerfis.value[i].nome
  {
  }
}
