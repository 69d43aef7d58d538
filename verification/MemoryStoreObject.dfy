/** The memory store object over its database tables, proved against the state functions of `MemoryStore`. */
module MemoryStoreObject {
  import opened JsText
  import opened MemoryStore
  import Utf8

  datatype Outcome = StoreClosed | Done(answer: Answer)

  class Store {
    const config: Config
    var observations: seq<Observation>
    var summaries: seq<Summary>
    var totalBytes: int
    var open: bool

    ghost function Model(): State
      reads this
    {
      State(observations, summaries, totalBytes)
    }

    /** Opens the tables as they are, creating them empty if the database is new. */
    constructor (config: Config, tables: State)
      ensures this.config == config && Model() == tables && open
    {
      this.config := config;
      observations, summaries, totalBytes := tables.observations, tables.summaries, tables.totalBytes;
      open := true;
    }

    method Observe(now: int, id: Text, validated: Option<Text>) returns (r: Outcome)
      modifies this`observations, this`totalBytes
      ensures !old(open) ==> r == StoreClosed && Model() == old(Model())
      ensures old(open) ==>
        r.Done? && (Model(), r.answer) == Step(config, old(Model()), MemoryStore.Observe(now, id, validated))
    {
      if !open {
        return StoreClosed;
      }
      if validated.None? {
        return Done(Invalid);
      }
      var content := validated.value;
      var hash := config.sha256(content);
      if config.window > 0 {
        var existing := Recent(observations, hash, now - config.window);
        if existing.Some? {
          return Done(Id(existing.value.id));
        }
      }
      var contentBytes := Utf8.ByteLength(content);
      if totalBytes + contentBytes > config.quota {
        return Done(QuotaExceeded);
      }
      observations := observations + [Observation(id, content, hash, now)];
      totalBytes := totalBytes + contentBytes;
      r := Done(Id(id));
    }

    method WriteSummary(now: int, id: Text, parsed: Option<SummaryInput>) returns (r: Outcome)
      modifies this`summaries, this`totalBytes
      ensures !old(open) ==> r == StoreClosed && Model() == old(Model())
      ensures old(open) ==>
        r.Done? && (Model(), r.answer) == Step(config, old(Model()), MemoryStore.WriteSummary(now, id, parsed))
    {
      if !open {
        return StoreClosed;
      }
      if parsed.None? {
        return Done(Invalid);
      }
      var contentBytes := SummaryBytes(parsed.value);
      if totalBytes + contentBytes > config.quota {
        return Done(QuotaExceeded);
      }
      summaries := summaries + [Summary(id, parsed.value)];
      totalBytes := totalBytes + contentBytes;
      r := Done(Id(id));
    }

    method PruneObservations(now: int, retentionDays: int) returns (r: Outcome)
      modifies this`observations
      ensures !old(open) ==> r == StoreClosed && Model() == old(Model())
      ensures old(open) ==>
        r.Done? && (Model(), r.answer) == Step(config, old(Model()), Prune(now, retentionDays))
      ensures old(open) ==> forall o :: o in observations <==>
        o in old(observations)
        && !(retentionDays >= 0 && o.created < now - retentionDays * DAY && !Listed(summaries, o.id))
    {
      if !open {
        return StoreClosed;
      }
      var listed := ListedIds(summaries);
      KeptExactly(observations, listed, now, retentionDays);
      PruneDivides(observations, listed, now, retentionDays);
      var kept := Kept(observations, listed, now, retentionDays);
      var changes := |observations| - |kept|;
      ghost var dropped := Dropped(observations, listed, now, retentionDays);
      assert |multiset(observations)| == |multiset(kept)| + |multiset(dropped)|;
      observations := kept;
      r := Done(Deleted(changes));
    }

    method Close()
      modifies this`open
      ensures !open
    {
      open := false;
    }
  }
}
