/** The limiter object and the table it shares with its successors, proved against the state
    functions of `RateLimiter`. */
module RateLimiterObject {
  import opened JsText
  import opened InsertionOrder
  import opened Gcra
  import opened RateLimiter

  class Table {
    var rows: map<Agent, real>

    constructor ()
      ensures rows == map[]
    {
      rows := map[];
    }
  }

  datatype OpenError = RateOrPeriodNotPositive | MaxAgentsNotPositive

  datatype Opened = Failed(error: OpenError) | Opened(limiter: Limiter)

  class Limiter {
    const config: Config
    var order: seq<Agent>
    var tats: map<Agent, real>
    var dirty: set<Agent>
    var db: Table?

    ghost function Model(): State
      reads this, db
    {
      State(order, tats, dirty, if db == null then None else Some(db.rows))
    }

    constructor (config: Config, db: Table?)
      ensures this.config == config && this.db == db
      ensures order == [] && tats == map[] && dirty == {}
    {
      this.config := config;
      this.db := db;
      order, tats, dirty := [], map[], {};
    }

    /** Construction as the caller sees it. `scan` is the order in which the rows come back. */
    static method Open(rate: real, period: real, maxAgents: int, db: Table?, now: real, scan: seq<Agent>)
      returns (r: Opened)
      requires db != null ==> Enumerates(scan, db.rows)
      ensures r == Failed(RateOrPeriodNotPositive) <==> rate <= 0.0 || period <= 0.0
      ensures r == Failed(MaxAgentsNotPositive) <==> rate > 0.0 && period > 0.0 && maxAgents < 1
      ensures r.Opened? ==>
        && fresh(r.limiter) && r.limiter.db == db
        && r.limiter.config == Config(period / rate, period, maxAgents) && ValidConfig(r.limiter.config)
        && Ok(r.limiter.Model())
        && r.limiter.Model() == if db == null then Fresh(false) else Load(r.limiter.config, db.rows, now, scan)
    {
      if rate <= 0.0 || period <= 0.0 {
        return Failed(RateOrPeriodNotPositive);
      }
      if maxAgents < 1 {
        return Failed(MaxAgentsNotPositive);
      }
      var limiter := new Limiter(Config(period / rate, period, maxAgents), db);
      if db != null {
        limiter.LoadRows(now, scan);
        LiveOrderMembers(limiter.config, db.rows, now, scan);
      }
      r := Opened(limiter);
    }

    /** The constructor's loop over the rows of the table. */
    method LoadRows(now: real, scan: seq<Agent>)
      requires db != null && Enumerates(scan, db.rows)
      requires order == [] && tats == map[] && dirty == {}
      modifies this`order, this`tats
      ensures Model() == Load(config, db.rows, now, scan)
      ensures forall a :: a in tats <==> a in db.rows && db.rows[a] > now - config.period
      ensures forall a :: a in tats ==> tats[a] == db.rows[a]
    {
      for i := 0 to |scan|
        invariant order == LiveOrder(config, db.rows, now, scan[..i])
        invariant Loaded(config, db.rows, now, scan[..i], tats)
      {
        var agent := scan[i];
        assert scan[..i + 1] == scan[..i] + [agent];
        LiveOrderSnoc(config, db.rows, now, scan[..i], agent);
        LoadedSnoc(config, db.rows, now, scan[..i], agent, tats);
        if db.rows[agent] > now - config.period {
          tats := tats[agent := db.rows[agent]];
          order := order + [agent];
        }
      }
      assert scan[..|scan|] == scan;
      LoadedAll(config, db.rows, now, scan, tats);
    }

    method Check(agent: Agent, now: real) returns (answer: Answer)
      requires Ok(Model())
      modifies this`order, this`tats, this`dirty
      ensures (Model(), answer) == RateLimiter.Check(config, old(Model()), agent, now)
      ensures Ok(Model())
    {
      ghost var s := Model();
      StepOk(config, s, Ask(agent, now));
      var previousTat := if agent in tats then tats[agent] else now;
      var newTat := Max(now, previousTat) + config.interval;
      if newTat - now > config.period {
        return Denied(newTat - now - config.period);
      }
      if agent !in tats {
        order := order + [agent];
      }
      tats := tats[agent := newTat];
      if db != null {
        dirty := dirty + {agent};
      }
      assert newTat == NextTat(config, Tat(s, agent), now);
      assert Model() == Put(s, agent, newTat);
      EvictIfNeeded();
      answer := Allowed;
    }

    method EvictIfNeeded()
      modifies this`order, this`tats, this`dirty
      ensures Model() == Evict(config, old(Model()))
    {
      while |order| > config.maxAgents
        invariant Evict(config, Model()) == Evict(config, old(Model()))
        decreases |order|
      {
        var oldest := order[0];
        tats := tats - {oldest};
        order := order[1..];
        dirty := dirty - {oldest};
      }
    }

    method ResetAgent(agent: Agent)
      requires Ok(Model())
      modifies this`order, this`tats, this`dirty, db
      ensures db == old(db) && Model() == RateLimiter.ResetAgent(old(Model()), agent)
      ensures Ok(Model()) && agent !in tats && (db != null ==> agent !in db.rows)
      ensures forall a :: a != agent ==> Tat(Model(), a) == Tat(old(Model()), a)
      ensures db != null ==> forall a :: a in db.rows <==> a in old(db.rows) && a != agent
      ensures db != null ==> forall a :: a in db.rows ==> db.rows[a] == old(db.rows)[a]
    {
      StepOk(config, Model(), Forget(agent));
      order := Without(order, agent);
      tats := tats - {agent};
      dirty := dirty - {agent};
      if db != null {
        db.rows := db.rows - {agent};
      }
    }

    method ResetAll()
      modifies this`order, this`tats, this`dirty, db
      ensures db == old(db) && Model() == RateLimiter.ResetAll(old(Model()))
      ensures tats == map[] && dirty == {} && (db != null ==> db.rows == map[])
    {
      order, tats, dirty := [], map[], {};
      if db != null {
        db.rows := map[];
      }
    }

    /** Writes the dirty agents, one row at a time. */
    method Flush()
      requires Ok(Model())
      modifies this`dirty, db
      ensures db == old(db) && Model() == RateLimiter.Flush(old(Model()))
      ensures Ok(Model()) && dirty == {}
      ensures db != null ==> forall a :: a in old(dirty) ==> a in db.rows && db.rows[a] == tats[a]
      ensures db != null ==> forall a :: a !in old(dirty) ==> (a in db.rows <==> a in old(db.rows))
      ensures db != null ==> forall a :: a in db.rows && a !in old(dirty) ==> db.rows[a] == old(db.rows)[a]
    {
      StepOk(config, Model(), Tick);
      if db == null || dirty == {} {
        assert db != null ==> Upserted(db.rows, tats, {}) == db.rows;
        return;
      }
      WriteDirty();
      dirty := {};
    }

    method WriteDirty()
      requires db != null
      modifies db
      ensures db.rows == Upserted(old(db.rows), tats, dirty)
    {
      var left := dirty;
      assert Upserted(db.rows, tats, dirty - left) == db.rows;
      while left != {}
        invariant left <= dirty
        invariant db.rows == Upserted(old(db.rows), tats, dirty - left)
        decreases left
      {
        var agent :| agent in left;
        UpsertOne(old(db.rows), tats, dirty - left, agent);
        assert dirty - (left - {agent}) == dirty - left + {agent};
        if agent in tats {
          db.rows := db.rows[agent := tats[agent]];
        }
        left := left - {agent};
      }
      assert dirty - left == dirty;
    }

    method Close()
      requires Ok(Model())
      modifies this`dirty, this`db, db
      ensures db == null && dirty == {} && Ok(Model())
      ensures old(db) != null ==> old(db).rows == Written(old(Model()))
    {
      Flush();
      db := null;
    }
  }

  lemma UpsertOne(rows: map<Agent, real>, tats: map<Agent, real>, agents: set<Agent>, a: Agent)
    ensures Upserted(rows, tats, agents + {a})
      == if a in tats then Upserted(rows, tats, agents)[a := tats[a]] else Upserted(rows, tats, agents)
  { }

  /** `tats` holds the live ones of the rows seen. */
  ghost predicate Loaded(c: Config, rows: map<Agent, real>, now: real, seen: seq<Agent>, tats: map<Agent, real>) {
    && (forall a :: a in seen ==> a in rows)
    && (forall a :: a in tats <==> a in seen && rows[a] > now - c.period)
    && (forall a :: a in tats ==> tats[a] == rows[a])
  }

  lemma LoadedSnoc(c: Config, rows: map<Agent, real>, now: real, seen: seq<Agent>, a: Agent, tats: map<Agent, real>)
    requires Loaded(c, rows, now, seen, tats) && a in rows
    ensures Loaded(c, rows, now, seen + [a], if rows[a] > now - c.period then tats[a := rows[a]] else tats)
  { }

  lemma LoadedAll(c: Config, rows: map<Agent, real>, now: real, scan: seq<Agent>, tats: map<Agent, real>)
    requires Enumerates(scan, rows) && Loaded(c, rows, now, scan, tats)
    ensures tats == Load(c, rows, now, scan).tats
  { }

  lemma {:induction false} LiveOrderSnoc(c: Config, rows: map<Agent, real>, now: real, scan: seq<Agent>, a: Agent)
    ensures LiveOrder(c, rows, now, scan + [a]) == LiveOrder(c, rows, now, scan)
      + if a in rows && rows[a] > now - c.period then [a] else []
  {
    if scan != [] {
      LiveOrderSnoc(c, rows, now, scan[1..], a);
      assert (scan + [a])[1..] == scan[1..] + [a];
    } else {
      assert ([a])[1..] == [];
    }
  }

  /** Closing a limiter and opening another on the same table takes the state to the one that
      the run model calls `Reopen`. */
  method CloseAndReopen(previous: Limiter, rate: real, now: real, scan: seq<Agent>) returns (r: Opened)
    requires rate > 0.0 && ValidConfig(previous.config) && previous.config.interval == previous.config.period / rate
    requires Ok(previous.Model()) && previous.db != null && Enumerates(scan, Written(previous.Model()))
    modifies previous, previous.db
    ensures r.Opened? && r.limiter.config == previous.config
    ensures r.limiter.Model() == Step(previous.config, old(previous.Model()), Reopen(now, scan)).0
  {
    var db := previous.db;
    previous.Close();
    r := Limiter.Open(rate, previous.config.period, previous.config.maxAgents, db, now, scan);
    assert r != Failed(RateOrPeriodNotPositive) && r != Failed(MaxAgentsNotPositive);
    assert r.Failed? ==> r.error == RateOrPeriodNotPositive || r.error == MaxAgentsNotPositive;
  }
}
