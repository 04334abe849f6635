/**
 The writer's background publisher: it notices changes by a counter, waits, copies the database and
 puts the copy into the object store, while requests keep writing between any two of its calls.
 */
module Publisher {
  import opened Wrappers
  import opened Records

  /** The database after a committed change, with the change counter it left. */
  datatype Commit = Commit(counter: nat, tables: Tables)

  /** Every commit raises the counter and only advances rows. */
  ghost predicate IsHistory(h: seq<Commit>) {
    h != [] && forall i | 0 < i < |h| :: h[i - 1].counter < h[i].counter && Advances(h[i - 1].tables, h[i].tables)
  }

  lemma {:induction false} HistoryIsOrdered(h: seq<Commit>, i: nat, j: nat)
    requires IsHistory(h) && i <= j < |h|
    ensures h[i].counter <= h[j].counter && (i < j ==> h[i].counter < h[j].counter)
    ensures Advances(h[i].tables, h[j].tables)
  {
    if i < j {
      HistoryIsOrdered(h, i, j - 1);
      AdvancesIsTransitive(h[i].tables, h[j - 1].tables, h[j].tables);
    }
  }

  /** Rows never vanish, so a database that has held a record never looks empty again. */
  lemma RecordsStay(t: Tables, u: Tables)
    requires Advances(t, u) && t.files != map[]
    ensures u.files != map[]
  {
    var s :| s in t.files;
    assert s in u.files;
  }

  /** The live database: the requests' writes land through Land, between the publisher's calls. */
  class LiveDatabase {
    ghost var history: seq<Commit>
    var counter: nat
    var tables: Tables

    ghost predicate Valid()
      reads this
    {
      IsHistory(history) && history[|history| - 1] == Commit(counter, tables)
    }

    constructor (counter: nat, tables: Tables)
      ensures Valid() && history == [Commit(counter, tables)]
    {
      this.counter, this.tables := counter, tables;
      history := [Commit(counter, tables)];
    }

    method Land(writes: seq<Commit>)
      requires Valid() && IsHistory(history + writes)
      modifies this
      ensures Valid() && history == old(history) + writes
      ensures writes == [] ==> counter == old(counter) && tables == old(tables)
    {
      history := history + writes;
      if writes != [] {
        counter, tables := writes[|writes| - 1].counter, writes[|writes| - 1].tables;
      }
    }
  }

  /** A copy without records has not replaced a published one, unless the guard was lifted. */
  ghost predicate GuardHolds(before: Option<Commit>, after: Option<Commit>, lifted: bool) {
    after != before && before.Some? && !lifted ==> after.Some? && after.value.tables.files != map[]
  }

  datatype PutAnswer = Stored | Refused | AnswerLost

  /**
   What happens around one publish: which calls fail, and which writes land before each call. size is
   what a HEAD request says of the stored object's; a database file is never empty.
   */
  datatype PublishEnv = PublishEnv(
    beforeRead: seq<Commit>, counterWorks: bool,
    beforeCount: seq<Commit>, countWorks: bool,
    headWorks: bool, size: nat,
    beforeCopy: seq<Commit>, copyWorks: bool,
    beforePut: seq<Commit>, put: PutAnswer)

  ghost function Writes(env: PublishEnv): seq<Commit> {
    env.beforeRead + env.beforeCount + env.beforeCopy + env.beforePut
  }

  ghost function AfterRead(h: seq<Commit>, env: PublishEnv): seq<Commit> {
    h + env.beforeRead
  }

  ghost function AfterCount(h: seq<Commit>, env: PublishEnv): seq<Commit> {
    h + env.beforeRead + env.beforeCount
  }

  ghost function AfterCopy(h: seq<Commit>, env: PublishEnv): seq<Commit> {
    h + env.beforeRead + env.beforeCount + env.beforeCopy
  }

  /** The counter a publish reads for itself, after the writes that land since its caller looked. */
  ghost function CounterRead(h: seq<Commit>, env: PublishEnv): nat
    requires h != []
  {
    AfterRead(h, env)[|AfterRead(h, env)| - 1].counter
  }

  /** The histories at which a publish may stop: between any two of its calls. */
  ghost predicate IsStop(h: seq<Commit>, env: PublishEnv, k: seq<Commit>) {
    k == h || k == AfterRead(h, env) || k == AfterCount(h, env) || k == AfterCopy(h, env) || k == h + Writes(env)
  }

  /** The copy may be published: the database held records when they were counted, or there is nothing to lose. */
  ghost predicate GuardPasses(h: seq<Commit>, env: PublishEnv, stored: Option<Commit>, lifted: bool)
    requires h != []
  {
    var counted := AfterCount(h, env);
    || counted[|counted| - 1].tables.files != map[]
    || lifted
    || (env.headWorks && (stored == None || env.size == 0))
  }

  /** When a publish succeeds, whatever writes land meanwhile. */
  ghost predicate Succeeds(h: seq<Commit>, env: PublishEnv, stored: Option<Commit>, lifted: bool)
    requires h != []
  {
    env.counterWorks && env.countWorks && GuardPasses(h, env, stored, lifted) && env.copyWorks && env.put == Stored
  }

  /** With records in the database, it succeeds if and only if every call works. */
  lemma SucceedsWithRecords(h: seq<Commit>, env: PublishEnv, stored: Option<Commit>, lifted: bool)
    requires IsHistory(h + Writes(env)) && IsHistory(h) && h[|h| - 1].tables.files != map[]
    ensures Succeeds(h, env, stored, lifted) <==> env.counterWorks && env.countWorks && env.copyWorks && env.put == Stored
  {
    hide IsHistory, Writes, AfterRead, AfterCount, AfterCopy;
    Stops(h, env);
    var more := env.beforeRead + env.beforeCount;
    assert AfterCount(h, env) == h + more;
    Extends(h, more);
  }

  /**
   What a tick that takes no time does to the publisher's fields, for a counter and a clock reading:
   the new fields, and whether it attempted to publish.
   */
  function AfterTick(published: int, dirtySince: Option<int>, counter: int, now: int, delay: nat, works: bool)
    : (int, Option<int>, bool)
  {
    if counter == published then (published, dirtySince, false)
    else
      var since := if dirtySince.Some? then dirtySince.value else now;
      if now - since < delay then (published, Some(since), false)
      else if works then (counter, None, true)
      else (published, Some(now), true)
  }

  class SnapshotStore {
    var stored: Option<Commit>

    constructor ()
      ensures stored == None
    {
      stored := None;
    }
  }

  class SnapshotPublisher {
    const db: LiveDatabase
    const store: SnapshotStore
    const delay: nat
    const restoreIgnored: bool   // ART_DB_RESTORE=ignore lifts the guard against empty copies

    var published: int
    var dirtySince: Option<int>

    ghost var baseline: int
    ghost var successes: nat
    ghost var clock: int
    ghost var lastEnd: Option<int>

    /**
     After the first successful publish the stored copy is a commit of this history between the counter
     remembered and the counter now; and successes are paid for by row changes.
     */
    ghost predicate Valid()
      reads this, db, store
    {
      && db.Valid()
      && baseline <= published <= db.counter
      && successes <= published - baseline
      && (successes > 0 ==>
            store.stored.Some? && store.stored.value in db.history && published <= store.stored.value.counter)
      && (lastEnd.Some? ==> lastEnd.value <= clock && (dirtySince.Some? ==> lastEnd.value <= dirtySince.value))
      && (dirtySince.Some? ==> dirtySince.value <= clock)
    }

    constructor (db: LiveDatabase, store: SnapshotStore, delay: nat, restoreIgnored: bool, now: int)
      requires db.Valid()
      ensures Valid() && this.db == db && this.store == store && this.delay == delay && this.restoreIgnored == restoreIgnored
      ensures published == db.counter && dirtySince == None && successes == 0 && clock == now && lastEnd == None
    {
      this.db, this.store, this.delay, this.restoreIgnored := db, store, delay, restoreIgnored;
      published, dirtySince := db.counter, None;
      baseline, successes, clock, lastEnd := db.counter, 0, now, None;
    }

    /** Whether publishing now would replace a real backup by an empty database. */
    method SnapshotLooksEmpty(rows: nat, headWorks: bool, size: nat) returns (r: Result<bool, ()>)
      ensures r.Success? <==> rows > 0 || restoreIgnored || headWorks
      ensures r.Success? ==> (r.value <==> rows == 0 && !restoreIgnored && store.stored.Some? && size > 0)
    {
      if rows > 0 || restoreIgnored {
        return Success(false);
      }
      if !headWorks {
        return Failure(());
      }
      if store.stored.None? {
        return Success(false);
      }
      return Success(size > 0);
    }

    /**
     Publishes one copy. Whatever lands meanwhile, a success leaves in the store a commit at least as new
     as the counter read first, which is what it remembers; a failure remembers nothing, though the copy
     may have arrived. A copy without records never replaces an object, unless the guard is lifted.
     */
    method Publish(env: PublishEnv) returns (ok: bool)
      requires Valid() && IsHistory(db.history + Writes(env))
      requires db.counter > published
      modifies this`published, this`successes, db, store
      ensures Valid() && IsStop(old(db.history), env, db.history)
      ensures ok ==> db.history == old(db.history) + Writes(env) && successes == old(successes) + 1
      ensures ok ==> published == CounterRead(old(db.history), env) >= old(db.counter)
      ensures !ok ==> published == old(published) && successes == old(successes)
      ensures store.stored == old(store.stored) ||
              (env.put != Refused && store.stored.Some? && store.stored.value in db.history
               && store.stored.value.counter >= CounterRead(old(db.history), env))
      ensures ok ==> store.stored.Some? && store.stored.value in db.history && store.stored.value.counter >= published
      ensures GuardHolds(old(store.stored), store.stored, restoreIgnored || env.size == 0)
      ensures ok <==> Succeeds(old(db.history), env, old(store.stored), restoreIgnored)
    {
      hide IsHistory, Writes, IsStop, AfterRead, AfterCount, AfterCopy;
      Stops(db.history, env);
      AreStops(db.history, env);
      ok := false;
      var before := CountAndCheck(env);
      if before.Success? {
        ok := CopyAndPut(env);
      }
      if ok {
        published := before.value;
        successes := successes + 1;
      }
    }

    /** Reads the counter, then makes sure that the database has records, or that none are needed. */
    method CountAndCheck(env: PublishEnv) returns (r: Result<nat, ()>)
      requires db.Valid() && IsHistory(db.history + env.beforeRead) && IsHistory(db.history + env.beforeRead + env.beforeCount)
      modifies db
      ensures db.Valid()
      ensures db.history == old(db.history) + env.beforeRead || db.history == old(db.history) + env.beforeRead + env.beforeCount
      ensures r.Success? ==>
                && db.history == old(db.history) + env.beforeRead + env.beforeCount
                && r.value == CounterRead(old(db.history), env)
                && (db.tables.files == map[] && !restoreIgnored && env.size > 0 ==> store.stored.None?)
      ensures r.Success? <==> env.counterWorks && env.countWorks && GuardPasses(old(db.history), env, store.stored, restoreIgnored)
    {
      db.Land(env.beforeRead);
      if !env.counterWorks {
        return Failure(());
      }
      var before := db.counter;
      db.Land(env.beforeCount);
      if !env.countWorks {
        return Failure(());
      }
      var rows := |db.tables.files|;
      assert rows == 0 <==> db.tables.files == map[];
      var empty := SnapshotLooksEmpty(rows, env.headWorks, env.size);
      return if empty.Failure? || empty.value then Failure(()) else Success(before);
    }

    /** Copies the database and puts the copy into the store: what arrives is the database as it was when copied. */
    method CopyAndPut(env: PublishEnv) returns (ok: bool)
      requires db.Valid() && IsHistory(db.history + env.beforeCopy) && IsHistory(db.history + env.beforeCopy + env.beforePut)
      modifies db, store
      ensures db.Valid()
      ensures db.history == old(db.history) + env.beforeCopy || db.history == old(db.history) + env.beforeCopy + env.beforePut
      ensures ok ==> db.history == old(db.history) + env.beforeCopy + env.beforePut
      ensures var copied := old(db.history) + env.beforeCopy;
              && copied != []
              && (ok ==> store.stored == Some(copied[|copied| - 1]))
              && (store.stored == old(store.stored) || (env.put != Refused && store.stored == Some(copied[|copied| - 1])))
      ensures ok <==> env.copyWorks && env.put == Stored
    {
      db.Land(env.beforeCopy);
      if !env.copyWorks {
        return false;
      }
      var copy := Commit(db.counter, db.tables);
      db.Land(env.beforePut);
      if env.put != Refused {
        store.stored := Some(copy);
      }
      return env.put == Stored;
    }

    /** A remembered counter equal to the current one means the store holds exactly the current database. */
    lemma CleanMeansStored()
      requires Valid() && successes > 0 && db.counter == published
      ensures store.stored == Some(Commit(db.counter, db.tables))
    {
      var h, c := db.history, store.stored.value;
      var i :| 0 <= i < |h| && h[i] == c;
      HistoryIsOrdered(h, i, |h| - 1);
    }

    /**
     One tick: start is when the tick looks, due when it decides, end when it is over. It attempts a
     publish exactly when the database has been dirty for the delay, and an attempt never starts within
     the delay after the end of the previous one.
     */
    method Tick(env: PublishEnv, readWorks: bool, start: int, due: int, end: int) returns (attempted: bool, ok: bool)
      requires Valid() && IsHistory(db.history + Writes(env)) && clock <= start <= due <= end
      modifies this, db, store
      ensures Valid() && clock == end
      ensures attempted ==> old(lastEnd).Some? ==> due - old(lastEnd).value >= delay
      ensures attempted ==> lastEnd == Some(end)
      ensures !attempted ==> lastEnd == old(lastEnd) && db.history == old(db.history) && store.stored == old(store.stored)
      ensures attempted <==> readWorks && old(db.counter) != old(published)
                             && due - (if old(dirtySince).Some? then old(dirtySince).value else start) >= delay
      ensures ok ==> attempted && dirtySince == None && published == CounterRead(old(db.history), env) >= old(db.counter)
      ensures attempted && !ok ==> dirtySince == Some(end) && published == old(published)
      ensures !attempted ==> published == old(published)
      ensures !attempted ==>
                dirtySince == if readWorks && old(db.counter) != old(published) && old(dirtySince) == None then Some(start)
                              else old(dirtySince)
      ensures readWorks && start == end && env.beforeRead == [] ==>
                (published, dirtySince, attempted) == AfterTick(old(published), old(dirtySince), old(db.counter), start, delay, ok)
      ensures GuardHolds(old(store.stored), store.stored, restoreIgnored || env.size == 0)
      ensures ok <==> attempted && Succeeds(old(db.history), env, old(store.stored), restoreIgnored)
    {
      hide IsHistory;
      attempted, ok := false, false;
      clock := end;
      if !readWorks {
        return;
      }
      if db.counter == published {
        return;
      }
      if dirtySince == None {
        dirtySince := Some(start);
      }
      if due - dirtySince.value < delay {
        return;
      }
      attempted := true;
      ok := Publish(env);
      dirtySince := if ok then None else Some(end);
      lastEnd := Some(end);
    }

    /** The last publish on the way out. */
    method Flush(env: PublishEnv, readWorks: bool) returns (ok: bool)
      requires Valid() && IsHistory(db.history + Writes(env))
      modifies this`published, this`successes, db, store
      ensures Valid()
      ensures ok ==> published == CounterRead(old(db.history), env) >= old(db.counter) && successes == old(successes) + 1
      ensures GuardHolds(old(store.stored), store.stored, restoreIgnored || env.size == 0)
      ensures ok <==> readWorks && old(db.counter) != old(published) && Succeeds(old(db.history), env, old(store.stored), restoreIgnored)
      ensures !ok ==> published == old(published) && successes == old(successes)
      ensures !readWorks || old(db.counter) == old(published) ==> db.history == old(db.history) && store.stored == old(store.stored)
    {
      hide IsHistory;
      ok := false;
      if readWorks && db.counter != published {
        ok := Publish(env);
      }
    }
  }

  /** Everything a publish needs to know about the histories around it. */
  lemma Stops(h: seq<Commit>, env: PublishEnv)
    requires IsHistory(h) && IsHistory(h + Writes(env))
    ensures h != []
    ensures var (b, c, d, e) := (AfterRead(h, env), AfterCount(h, env), AfterCopy(h, env), h + Writes(env));
            && b == h + env.beforeRead && c == b + env.beforeCount && d == c + env.beforeCopy && e == d + env.beforePut
            && IsHistory(b) && IsHistory(c) && IsHistory(d) && b != [] && c != [] && d != [] && e != []
            && h[|h| - 1].counter <= b[|b| - 1].counter <= c[|c| - 1].counter <= d[|d| - 1].counter <= e[|e| - 1].counter
            && (forall x | x in h :: x in b && x in c && x in d && x in e)
            && d[|d| - 1] in d && d[|d| - 1] in e
            && (c[|c| - 1].tables.files != map[] ==> d[|d| - 1].tables.files != map[])
  {
    var (b, c, d, e) := (AfterRead(h, env), AfterCount(h, env), AfterCopy(h, env), h + Writes(env));
    assert h != [];
    assert e == d + env.beforePut;
    hide IsHistory, Writes;
    Extends(d, env.beforePut);
    Extends(c, env.beforeCopy);
    Extends(b, env.beforeCount);
    Extends(h, env.beforeRead);
  }

  /** A history's beginning is a history, behind in its counter and ahead in nothing. */
  lemma Extends(h: seq<Commit>, more: seq<Commit>)
    requires h != [] && IsHistory(h + more)
    ensures IsHistory(h)
    ensures var k := h + more; h[|h| - 1].counter <= k[|k| - 1].counter && (forall x | x in h :: x in k)
    ensures var k := h + more; h[|h| - 1].tables.files != map[] ==> k[|k| - 1].tables.files != map[]
  {
    var k := h + more;
    assert h == k[..|h|];
    PrefixIsHistory(k, |h|);
    HistoryIsOrdered(k, |h| - 1, |k| - 1);
    if h[|h| - 1].tables.files != map[] {
      RecordsStay(h[|h| - 1].tables, k[|k| - 1].tables);
    }
  }

  lemma AreStops(h: seq<Commit>, env: PublishEnv)
    ensures IsStop(h, env, h) && IsStop(h, env, AfterRead(h, env)) && IsStop(h, env, AfterCount(h, env)) && IsStop(h, env, AfterCopy(h, env))
    ensures IsStop(h, env, h + Writes(env))
  {
  }

  lemma PrefixIsHistory(h: seq<Commit>, n: nat)
    requires IsHistory(h) && 0 < n <= |h|
    ensures IsHistory(h[..n])
  {
  }
}
