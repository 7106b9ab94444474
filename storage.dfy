/**
 * The release store the rollback reads and writes: a versioned history keyed
 * by (name, version), plus the set of names whose per-name lock is held.
 * The storage driver behind it is reduced to map lookups and updates.
 */
module Storage {
  import opened Wrappers
  import opened Releases

  type Key = (string, int)
  type Records = map<Key, Release>

  function KeyOf(r: Release): Key { (r.name, r.version) }

  /** Every record sits under the key made from its own name and version. */
  ghost predicate WellKeyed(records: Records)
  {
    forall k :: k in records ==> KeyOf(records[k]) == k
  }

  /** The versions stored under `name`. */
  function Versions(records: Records, name: string): (vs: set<int>)
    ensures forall v :: v in vs <==> (name, v) in records
  {
    set k | k in records && k.0 == name :: k.1
  }

  lemma HasElement(s: set<int>)
    requires s != {}
    ensures exists x :: x in s
  {
    if forall x :: x !in s {
      assert false;
    }
  }

  lemma {:induction false} MaxExists(s: set<int>)
    requires s != {}
    ensures exists m :: m in s && forall x :: x in s ==> x <= m
  {
    HasElement(s);
    var y :| y in s;
    if s != {y} {
      var rest := s - {y};
      assert rest != {} by {
        if rest == {} {
          assert false;
        }
      }
      MaxExists(rest);
      var m :| m in rest && forall x :: x in rest ==> x <= m;
      assert forall x :: x in s ==> x == y || x in rest;
      if y > m {
        assert forall x :: x in s ==> x <= y;
      } else {
        assert forall x :: x in s ==> x <= m;
      }
    } else {
      assert forall x :: x in s ==> x <= y;
    }
  }

  /** The largest element of a non-empty finite set. */
  function MaxOf(s: set<int>): (m: int)
    requires s != {}
    ensures m in s && forall x :: x in s ==> x <= m
  {
    MaxExists(s);
    var m :| m in s && forall x :: x in s ==> x <= m; m
  }

  /** `Last`: the record with the highest version stored under `name`. */
  function LastOf(records: Records, name: string): (r: Result<Release, Error>)
    ensures r.Ok? <==> exists k :: k in records && k.0 == name
    ensures r.Err? ==> r.error == ReleaseNotFound(name)
    ensures WellKeyed(records) && r.Ok? ==>
      r.value.name == name && KeyOf(r.value) in records && records[KeyOf(r.value)] == r.value &&
      forall k :: k in records && k.0 == name ==> k.1 <= r.value.version
  {
    var vs := Versions(records, name);
    if vs == {} then
      assert forall k :: k in records && k.0 == name ==> k.1 in vs;
      Err(ReleaseNotFound(name))
    else
      var v := MaxOf(vs);
      assert (name, v) in records;
      Ok(records[(name, v)])
  }

  /** `Get`: the record stored under `name` at `version`. */
  function GetOf(records: Records, name: string, version: int): (r: Result<Release, Error>)
    ensures r.Ok? <==> (name, version) in records
    ensures r.Ok? ==> r.value == records[(name, version)]
    ensures r.Err? ==> r.error == RevisionNotFound(name, version)
  {
    if (name, version) in records then Ok(records[(name, version)])
    else Err(RevisionNotFound(name, version))
  }

  /** `Update`: overwrite an existing record; a record that is not stored is an error. */
  function Updated(records: Records, r: Release): (res: (Records, Option<Error>))
    ensures WellKeyed(records) ==> WellKeyed(res.0)
    ensures res.0.Keys == records.Keys
    ensures res.1.None? <==> KeyOf(r) in records
    ensures res.1.None? ==> res.0[KeyOf(r)] == r
    ensures res.1.Some? ==> res.1 == Some(RevisionNotFound(r.name, r.version)) && res.0 == records
    ensures forall k :: k in records && k != KeyOf(r) ==> res.0[k] == records[k]
  {
    if KeyOf(r) in records then (records[KeyOf(r) := r], None)
    else (records, Some(RevisionNotFound(r.name, r.version)))
  }

  /**
   * `Create`: insert a new record. An existing key is refused; `driver` is the
   * storage backend's own verdict on the write.
   */
  function Created(records: Records, r: Release, driver: Outcome): (res: (Records, Option<Error>))
    ensures WellKeyed(records) ==> WellKeyed(res.0)
    ensures res.1.None? <==> KeyOf(r) !in records && driver.Succeeded?
    ensures res.1.None? ==> res.0 == records[KeyOf(r) := r]
    ensures res.1.Some? ==> res.0 == records
    ensures KeyOf(r) in records ==> res.1 == Some(ReleaseExists(r.name, r.version))
    ensures KeyOf(r) !in records && driver.Failed? ==> res.1 == Some(StorageFailure(driver.msg))
  {
    if KeyOf(r) in records then (records, Some(ReleaseExists(r.name, r.version)))
    else if driver.Failed? then (records, Some(StorageFailure(driver.msg)))
    else (records[KeyOf(r) := r], None)
  }

  /** The release store, updated in place by the operations that hold a lock on a name. */
  class Store {
    var records: Records
    var locks: set<string>

    ghost predicate Valid()
      reads this
    {
      WellKeyed(records)
    }

    constructor (records: Records)
      requires WellKeyed(records)
      ensures Valid() && this.records == records && locks == {}
    {
      this.records := records;
      locks := {};
    }

    /** Try once to take the lock on `name`; fails at once when it is already held. */
    method LockRelease(name: string) returns (err: Option<Error>)
      modifies this`locks
      ensures err == if name in old(locks) then Some(LockHeld(name)) else None
      ensures locks == old(locks) + {name}
    {
      if name in locks {
        err := Some(LockHeld(name));
      } else {
        locks := locks + {name};
        err := None;
      }
    }

    method UnlockRelease(name: string)
      modifies this`locks
      ensures locks == old(locks) - {name}
    {
      locks := locks - {name};
    }

    method Update(r: Release) returns (err: Option<Error>)
      requires Valid()
      modifies this`records
      ensures Valid()
      ensures (records, err) == Updated(old(records), r)
    {
      if KeyOf(r) in records {
        records := records[KeyOf(r) := r];
        err := None;
      } else {
        err := Some(RevisionNotFound(r.name, r.version));
      }
    }

    method Create(r: Release, driver: Outcome) returns (err: Option<Error>)
      requires Valid()
      modifies this`records
      ensures Valid()
      ensures (records, err) == Created(old(records), r, driver)
    {
      if KeyOf(r) in records {
        err := Some(ReleaseExists(r.name, r.version));
      } else if driver.Failed? {
        err := Some(StorageFailure(driver.msg));
      } else {
        records := records[KeyOf(r) := r];
        err := None;
      }
    }
  }
}
