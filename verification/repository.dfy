/** The `usuarios` table and the user repository over it: Spring Data derived
    queries as pure functions of the stored rows, and the two writes (`save`,
    `deleteById`). */
module Repository {
  import opened Results
  import opened Errors
  import opened Models

  /** The table: rows by primary key, and the next value of the `seq_usuario`
      sequence. */
  datatype Store = Store(rows: map<int, Usuario>, nextId: int)

  /** What the table guarantees of its rows: keys drawn from the sequence and
      equal to the id column, no transient data, the non-null columns set, and
      the unique columns (login, email) unique over all rows, active or not. */
  ghost predicate Valid(s: Store) {
    && 0 < s.nextId
    && (forall k :: k in s.rows ==> 0 < k < s.nextId && s.rows[k].id == Some(k))
    && (forall k :: k in s.rows ==> NoTransients(s.rows[k]) && NonNullColumns(s.rows[k]))
    && Unique(s.rows)
  }

  ghost predicate Unique(rows: map<int, Usuario>) {
    forall j, k :: j in rows && k in rows && j != k ==>
      rows[j].login != rows[k].login && rows[j].email != rows[k].email
  }

  /* ---------------------------------------------------------------- lookups */

  /** `findById`: the row under a primary key. */
  function FindById(s: Store, id: int): Option<Usuario> {
    if id in s.rows then Some(s.rows[id]) else None
  }

  /** The only element of a one-element set. */
  function TheElement(keys: set<int>): (k: int)
    requires |keys| == 1
    ensures keys == {k}
  {
    Singleton(keys);
    var k :| keys == {k};
    k
  }

  /** A member of a non-empty set. */
  lemma Member<T>(keys: set<T>) returns (x: T)
    requires |keys| > 0
    ensures x in keys
  {
    x :| x in keys;
  }

  lemma Singleton(keys: set<int>)
    requires |keys| == 1
    ensures exists a :: keys == {a}
  {
    var a := Member(keys);
    assert |keys - {a}| == 0;
    assert keys - {a} == {};
    assert keys == {a};
  }

  /** A single-result derived query: no row, one row, or `NonUniqueResult`. */
  function Single(rows: map<int, Usuario>, keys: set<int>): (r: Result<Option<Usuario>, Error>)
    requires keys <= rows.Keys
    ensures r == Ok(None) <==> keys == {}
    ensures r.Ok? && r.value.Some? <==> |keys| == 1
    ensures r.Ok? && r.value.Some? ==> forall k :: k in keys ==> r.value.value == rows[k]
    ensures r.Err? ==> r.error == NonUniqueResult
  {
    if keys == {} then Ok(None)
    else if |keys| == 1 then Ok(Some(rows[TheElement(keys)]))
    else Err(NonUniqueResult)
  }

  /** Keys of the rows whose id column equals `id` and whose flag equals `ativo`. */
  function IdMatches(s: Store, id: Option<int>, ativo: bool): set<int> {
    set k | k in s.rows && s.rows[k].id == id && s.rows[k].pojo.ativo == ativo
  }

  /** Keys of the rows whose login column equals `login` and whose flag equals `ativo`. */
  function LoginMatches(s: Store, login: Option<string>, ativo: bool): set<int> {
    set k | k in s.rows && s.rows[k].login == login && s.rows[k].pojo.ativo == ativo
  }

  /** `findDistinctByIdAndAtivo`: the row whose id column and flag match. */
  function FindDistinctByIdAndAtivo(s: Store, id: Option<int>, ativo: bool): (r: Result<Option<Usuario>, Error>)
    ensures r.Ok? && r.value.Some? ==> r.value.value.id == id && r.value.value.pojo.ativo == ativo
    ensures r.Ok? && r.value.Some? ==> r.value.value in s.rows.Values
    ensures r == Ok(None) <==> forall k :: k in s.rows ==> s.rows[k].id != id || s.rows[k].pojo.ativo != ativo
    ensures Valid(s) ==> r == Ok(if id.Some? && id.value in s.rows && s.rows[id.value].pojo.ativo == ativo
                                 then Some(s.rows[id.value]) else None)
  {
    IdMatchesWhenValid(s, id, ativo);
    IdMatchesEmpty(s, id, ativo);
    Single(s.rows, IdMatches(s, id, ativo))
  }

  lemma IdMatchesEmpty(s: Store, id: Option<int>, ativo: bool)
    ensures IdMatches(s, id, ativo) == {} <==>
              forall k :: k in s.rows ==> s.rows[k].id != id || s.rows[k].pojo.ativo != ativo
  {
    if forall k :: k in s.rows ==> s.rows[k].id != id || s.rows[k].pojo.ativo != ativo {
      assert forall k :: k !in IdMatches(s, id, ativo);
    } else {
      var k :| k in s.rows && s.rows[k].id == id && s.rows[k].pojo.ativo == ativo;
      assert k in IdMatches(s, id, ativo);
    }
  }

  /** In a valid table the id column is the key, so at most the row under `id` matches. */
  lemma IdMatchesWhenValid(s: Store, id: Option<int>, ativo: bool)
    ensures Valid(s) ==>
              IdMatches(s, id, ativo) ==
              (if id.Some? && id.value in s.rows && s.rows[id.value].pojo.ativo == ativo then {id.value} else {})
  {
    if Valid(s) {
      var keys := IdMatches(s, id, ativo);
      if id.Some? && id.value in s.rows && s.rows[id.value].pojo.ativo == ativo {
        forall k | k in keys
          ensures k == id.value
        {
          assert s.rows[k].id == Some(k);
        }
        var k := id.value;
        assert k in s.rows;
        assert s.rows[k].id == Some(k);
        assert Some(k) == id;
        assert id.value in keys;
      } else {
        assert forall k :: k in keys ==> s.rows[k].id == Some(k);
      }
    }
  }

  /** `findDistinctByLoginAndAtivo`: the row whose login column and flag match. */
  function FindDistinctByLoginAndAtivo(s: Store, login: Option<string>, ativo: bool): (r: Result<Option<Usuario>, Error>)
    ensures r.Ok? && r.value.Some? ==> r.value.value.login == login && r.value.value.pojo.ativo == ativo
    ensures r.Ok? && r.value.Some? ==> r.value.value in s.rows.Values
    ensures r == Ok(None) <==> forall k :: k in s.rows ==> s.rows[k].login != login || s.rows[k].pojo.ativo != ativo
    ensures Valid(s) ==> r.Ok?
  {
    LoginMatchesWhenValid(s, login, ativo);
    LoginMatchesEmpty(s, login, ativo);
    Single(s.rows, LoginMatches(s, login, ativo))
  }

  lemma LoginMatchesEmpty(s: Store, login: Option<string>, ativo: bool)
    ensures LoginMatches(s, login, ativo) == {} <==>
              forall k :: k in s.rows ==> s.rows[k].login != login || s.rows[k].pojo.ativo != ativo
  {
    if forall k :: k in s.rows ==> s.rows[k].login != login || s.rows[k].pojo.ativo != ativo {
      assert forall k :: k !in LoginMatches(s, login, ativo);
    } else {
      var k :| k in s.rows && s.rows[k].login == login && s.rows[k].pojo.ativo == ativo;
      assert k in LoginMatches(s, login, ativo);
    }
  }

  /** In a valid table logins are unique, so at most one row matches. */
  lemma LoginMatchesWhenValid(s: Store, login: Option<string>, ativo: bool)
    ensures Valid(s) ==> |LoginMatches(s, login, ativo)| <= 1
  {
    var keys := LoginMatches(s, login, ativo);
    if Valid(s) && |keys| > 1 {
      var a := Member(keys);
      assert |keys - {a}| > 0;
      var b := Member(keys - {a});
      assert false;
    }
  }

  /* ----------------------------------------------------------------- counts */

  /** The rows a count query counts: this value in the column, the id column set
      and different from `id`, and, when `ativo` is given, that flag. */
  predicate Counted(u: Usuario, value: Option<string>, byEmail: bool, ativo: Option<bool>, id: int) {
    && (if byEmail then u.email == value else u.login == value)
    && (ativo.None? || u.pojo.ativo == ativo.value)
    && u.id.Some? && u.id.value != id
  }

  function CountedKeys(s: Store, value: Option<string>, byEmail: bool, ativo: Option<bool>, id: int): set<int> {
    set k | k in s.rows && Counted(s.rows[k], value, byEmail, ativo, id)
  }

  lemma CountedKeysEmpty(s: Store, value: Option<string>, byEmail: bool, ativo: Option<bool>, id: int)
    ensures CountedKeys(s, value, byEmail, ativo, id) == {} <==>
              forall k :: k in s.rows ==> !Counted(s.rows[k], value, byEmail, ativo, id)
  {
    if forall k :: k in s.rows ==> !Counted(s.rows[k], value, byEmail, ativo, id) {
      assert forall k :: k !in CountedKeys(s, value, byEmail, ativo, id);
    } else {
      var k :| k in s.rows && Counted(s.rows[k], value, byEmail, ativo, id);
      assert k in CountedKeys(s, value, byEmail, ativo, id);
    }
  }

  /** `countByEmailAndIdNot`: rows with this email and another id, active or not. */
  function CountByEmailAndIdNot(s: Store, email: Option<string>, id: int): (n: nat)
    ensures n == 0 <==> forall k :: k in s.rows ==> !(s.rows[k].email == email && s.rows[k].id.Some? && s.rows[k].id.value != id)
  {
    CountedKeysEmpty(s, email, true, None, id);
    |CountedKeys(s, email, true, None, id)|
  }

  /** `countByLoginAndIdNot`: rows with this login and another id, active or not. */
  function CountByLoginAndIdNot(s: Store, login: Option<string>, id: int): (n: nat)
    ensures n == 0 <==> forall k :: k in s.rows ==> !(s.rows[k].login == login && s.rows[k].id.Some? && s.rows[k].id.value != id)
  {
    CountedKeysEmpty(s, login, false, None, id);
    |CountedKeys(s, login, false, None, id)|
  }

  /** `countByEmailAndAtivoAndIdNot`, the query of the older service: rows with
      this email, this flag and another id. */
  function CountByEmailAndAtivoAndIdNot(s: Store, email: Option<string>, ativo: bool, id: int): (n: nat)
    ensures n == 0 <==> forall k :: k in s.rows ==>
                          !(s.rows[k].email == email && s.rows[k].pojo.ativo == ativo && s.rows[k].id.Some? && s.rows[k].id.value != id)
  {
    CountedKeysEmpty(s, email, true, Some(ativo), id);
    |CountedKeys(s, email, true, Some(ativo), id)|
  }

  /** `findByAtivo`: exactly the rows with this flag. */
  function FindByAtivo(s: Store, ativo: bool): (r: map<int, Usuario>)
    ensures forall k :: k in r <==> k in s.rows && s.rows[k].pojo.ativo == ativo
    ensures forall k :: k in r ==> r[k] == s.rows[k]
  {
    map k | k in s.rows && s.rows[k].pojo.ativo == ativo :: s.rows[k]
  }

  /** `countByAtivo`: the number of rows with this flag. */
  function CountByAtivo(s: Store, ativo: bool): (n: nat)
    ensures n == |FindByAtivo(s, ativo)|
    ensures n <= |s.rows|
  {
    var keys := set k | k in s.rows && s.rows[k].pojo.ativo == ativo;
    assert keys == FindByAtivo(s, ativo).Keys;
    assert keys <= s.rows.Keys;
    SubsetCardinality(keys, s.rows.Keys);
    |keys|
  }

  lemma SubsetCardinality(a: set<int>, b: set<int>)
    requires a <= b
    ensures |a| <= |b|
  {
    assert b == a + (b - a);
  }

  /* ----------------------------------------------------------------- writes */

  /** What the database answers to a write: it takes it, detects a concurrent
      version change, or fails for a reason outside the model. */
  datatype Signal = Accepted | OptimisticLockFailure | Failed(code: int)

  /** The store's own failure, before the service translates it. */
  datatype Fault = Stale | Violation | Other(code: int)

  datatype Saved = Saved(store: Store, row: Usuario)

  /** The key a save writes: the entity's own id when the table holds it,
      otherwise the next sequence value (a new row). */
  function TargetKey(s: Store, e: Usuario): int {
    if e.id.Some? && e.id.value in s.rows then e.id.value else s.nextId
  }

  /** Would writing `e` under key `k` duplicate another row's login or email? */
  predicate Collides(rows: map<int, Usuario>, k: int, e: Usuario) {
    exists j :: j in rows && j != k && (rows[j].login == e.login || rows[j].email == e.email)
  }

  /** `save`: insert or update, returning the stored row. */
  function Save(s: Store, e: Usuario, signal: Signal): (r: Result<Saved, Fault>)
    ensures signal.OptimisticLockFailure? ==> r == Err(Stale)
    ensures signal.Failed? ==> r == Err(Other(signal.code))
    ensures signal.Accepted? ==>
              (r.Ok? <==> NonNullColumns(e) && !Collides(s.rows, TargetKey(s, e), e))
    ensures signal.Accepted? && r.Err? ==> r.error == Violation
    ensures r.Ok? ==>
              var k := TargetKey(s, e);
              && r.value.row == Persisted(e).(id := Some(k))
              && r.value.store.rows == s.rows[k := r.value.row]
    ensures r.Ok? && Valid(s) ==> Valid(r.value.store)
    ensures r.Ok? && Valid(s) && e.id.None? ==> TargetKey(s, e) !in s.rows
  {
    match signal
    case OptimisticLockFailure => Err(Stale)
    case Failed(c) => Err(Other(c))
    case Accepted =>
      var k := TargetKey(s, e);
      if !NonNullColumns(e) || Collides(s.rows, k, e) then Err(Violation)
      else
        var row := Persisted(e).(id := Some(k));
        var s' := Store(s.rows[k := row], if k == s.nextId then s.nextId + 1 else s.nextId);
        assert Valid(s) ==> Valid(s') by {
          if Valid(s) {
            forall i, j | i in s'.rows && j in s'.rows && i != j
              ensures s'.rows[i].login != s'.rows[j].login && s'.rows[i].email != s'.rows[j].email
            {
              if i == k {
                assert !(s.rows[j].login == e.login || s.rows[j].email == e.email);
              } else if j == k {
                assert !(s.rows[i].login == e.login || s.rows[i].email == e.email);
              }
            }
          }
        }
        Ok(Saved(s', row))
  }

  /** `deleteById`: removes the row under `id`. */
  function DeleteById(s: Store, id: Option<int>): (r: Result<Store, Error>)
    ensures id.None? ==> r == Err(IllegalArgument)
    ensures id.Some? && id.value !in s.rows ==> r == Err(EmptyResult)
    ensures r.Ok? <==> id.Some? && id.value in s.rows
    ensures r.Ok? ==> r.value.rows == s.rows - {id.value} && r.value.nextId == s.nextId
    ensures r.Ok? && Valid(s) ==> Valid(r.value)
  {
    if id.None? then Err(IllegalArgument)
    else if id.value !in s.rows then Err(EmptyResult)
    else Ok(s.(rows := s.rows - {id.value}))
  }
}
