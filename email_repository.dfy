/**
 * The `EmailRepository` the services persist through, as the state of the
 * `emails` table plus a log of every row `save` wrote.
 */
module EmailStore {
  import opened Wrappers
  import opened Entity

  /** The ids of the rows whose recipient is `address`. */
  ghost function Matches(rows: map<Id, EmailRow>, address: string): set<Id>
  {
    set id | id in rows && rows[id].recipientEmail == address
  }

  /** What `findByRecipientEmail` yields: empty, the one match, or an IncorrectResultSize failure. */
  datatype Lookup = NoMatch | Unique(id: Id) | NotUnique

  lemma SingletonIs<T>(s: set<T>, x: T)
    requires |s| == 1 && x in s
    ensures s == {x}
  {
    assert |s - {x}| == 0;
  }

  /**
   * `findByRecipientEmail(address)`. A null address matches nothing, since
   * recipient_email is a NOT NULL column; more than one match is an error.
   */
  ghost function RecipientLookup(rows: map<Id, EmailRow>, address: Option<string>): (r: Lookup)
    ensures address.None? ==> r == NoMatch
    ensures address.Some? ==>
      && (r == NoMatch <==> Matches(rows, address.value) == {})
      && (r.Unique? ==> Matches(rows, address.value) == {r.id})
      && (r == NotUnique <==> exists a, b :: a in Matches(rows, address.value) && b in Matches(rows, address.value) && a != b)
  {
    if address.None? then NoMatch
    else
      var ms := Matches(rows, address.value);
      if |ms| == 0 then NoMatch
      else if |ms| == 1 then
        var id :| id in ms;
        SingletonIs(ms, id);
        Unique(id)
      else
        var a :| a in ms;
        assert |ms - {a}| > 0;
        var b :| b in ms - {a};
        NotUnique
  }

  /** A set of ids that is exactly 0, 1, ..., n - 1 has n elements. */
  lemma {:induction false} IdsBelowCount(ids: set<Id>, n: nat)
    requires forall id :: id in ids ==> id < n
    requires forall id :: 0 <= id < n ==> id in ids
    ensures |ids| == n
  {
    if n > 0 {
      IdsBelowCount(ids - {n - 1}, n - 1);
    } else {
      assert ids == {};
    }
  }

  class EmailRepository {
    /** The table, keyed by id. */
    var rows: map<Id, EmailRow>
    /** The id the next insert is given; ids are never reused. */
    var nextId: nat
    /** Every row written by `save`, in order. */
    var writes: seq<EmailRow>

    /** Each row is stored under its own id, and the ids in use are exactly those below nextId. */
    ghost predicate Valid()
      reads this
    {
      && (forall id :: id in rows ==> id < nextId && rows[id].id == Some(id))
      && (forall id :: 0 <= id < nextId ==> id in rows)
    }

    constructor ()
      ensures Valid() && rows == map[] && nextId == 0 && writes == []
    {
      rows := map[];
      nextId := 0;
      writes := [];
    }

    /**
     * `save(e)`. A new entity (null id) is persisted: @PrePersist runs, it is
     * given a fresh id and inserted. An entity with an id is merged over its row.
     */
    method Save(e: Email, now: Timestamp)
      requires Valid()
      requires e.id.Some? ==> e.id.value in rows
      modifies this, e
      ensures Valid()
      ensures old(e.id).None? ==>
        && e.Row() == WithDefaults(old(e.Row()), now).(id := Some(old(nextId)))
        && old(nextId) !in old(rows)
        && nextId == old(nextId) + 1
      ensures old(e.id).Some? ==> e.Row() == old(e.Row()) && nextId == old(nextId)
      ensures e.id.Some? && rows == old(rows)[e.id.value := e.Row()]
      ensures writes == old(writes) + [e.Row()]
    {
      if e.id.None? {
        e.PrePersist(now);
        e.id := Some(nextId);
        nextId := nextId + 1;
      }
      rows := rows[e.id.value := e.Row()];
      writes := writes + [e.Row()];
    }

    /** `findById(id)`: a fresh entity loaded from the row, or null. */
    method FindById(id: Id) returns (e: Email?)
      ensures e == null <==> id !in rows
      ensures e != null ==> fresh(e) && e.Row() == rows[id]
    {
      if id in rows {
        e := new Email(rows[id]);
      } else {
        e := null;
      }
    }

    /** `findByRecipientEmail(address)`, loading the entity when there is exactly one match. */
    method FindByRecipientEmail(address: Option<string>) returns (r: Lookup, e: Email?)
      ensures r == RecipientLookup(rows, address)
      ensures r.Unique? ==> r.id in rows && e != null && fresh(e) && e.Row() == rows[r.id]
      ensures !r.Unique? ==> e == null
    {
      r, e := NoMatch, null;
      if address.Some? {
        var ms := set id | id in rows && rows[id].recipientEmail == address.value;
        assert ms == Matches(rows, address.value);
        if |ms| == 1 {
          var id :| id in ms;
          SingletonIs(ms, id);
          r := Unique(id);
          e := new Email(rows[id]);
        } else if |ms| > 1 {
          r := NotUnique;
        }
      }
    }

    /** `findAll()`, in id order. */
    function FindAll(): (all: seq<EmailRow>)
      reads this
      requires Valid()
      ensures forall i :: 0 <= i < |all| ==> i in rows && all[i] == rows[i]
      ensures forall id :: id in rows ==> id < |all|
      ensures |all| == nextId == |rows|
      ensures forall i, j :: 0 <= i < j < |all| ==> all[i].id != all[j].id
    {
      IdsBelowCount(rows.Keys, nextId);
      seq(nextId, i requires 0 <= i < nextId reads this requires Valid() => rows[i])
    }
  }
}
