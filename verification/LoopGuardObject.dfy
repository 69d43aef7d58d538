/** The loop guard object, proved against the state functions of `LoopGuard`. */
module LoopGuardObject {
  import opened JsText
  import opened InsertionOrder
  import opened LoopGuard

  datatype CreateError = WarnNotBelowBlock | HistoryOrWindowNotPositive | MaxAgentsNotPositive

  datatype Created = Failed(error: CreateError) | Created(guard: Guard)

  class Guard {
    const config: Config
    const sha256: Text -> Text
    var order: seq<Agent>
    var history: map<Agent, seq<Entry>>
    ghost var calls: map<Agent, seq<Call>>

    ghost function Model(): State
      reads this
    {
      State(order, history, calls)
    }

    constructor (config: Config, sha256: Text -> Text)
      ensures this.config == config && this.sha256 == sha256 && Model() == FRESH
    {
      this.config := config;
      this.sha256 := sha256;
      order, history, calls := [], map[], map[];
    }

    static method Create(config: Config, sha256: Text -> Text) returns (r: Created)
      ensures r.Created? <==> ValidConfig(config)
      ensures r == Failed(WarnNotBelowBlock) <==> config.warn >= config.block
      ensures r.Created? ==> fresh(r.guard) && r.guard.Model() == FRESH
      ensures r.Created? ==> r.guard.config == config && r.guard.sha256 == sha256
    {
      if config.warn >= config.block {
        return Failed(WarnNotBelowBlock);
      }
      if config.maxHistory < 1 || config.window < 1 {
        return Failed(HistoryOrWindowNotPositive);
      }
      if config.maxAgents < 1 {
        return Failed(MaxAgentsNotPositive);
      }
      var guard := new Guard(config, sha256);
      r := Created(guard);
    }

    method Check(agent: Agent, call: Call) returns (verdict: Verdict)
      requires ValidConfig(config)
      modifies this
      ensures (Model(), verdict) == LoopGuard.Check(config, sha256, old(Model()), agent, call)
    {
      var hash := Fingerprint(sha256, call.tool, call.params);
      var entries := Remember(agent, call, hash);
      EvictIfNeeded();
      var duplicateCount := Count(entries, hash);
      var action := Allow;
      if duplicateCount >= config.block {
        action := Block;
      } else if duplicateCount >= config.warn {
        action := Warn;
      }
      verdict := Verdict(action, duplicateCount);
    }

    method Remember(agent: Agent, call: Call, hash: Text) returns (entries: seq<Entry>)
      requires ValidConfig(config) && hash == Fingerprint(sha256, call.tool, call.params)
      modifies this
      ensures Model() == Stored(config, sha256, old(Model()), agent, call)
      ensures entries == Stored(config, sha256, old(Model()), agent, call).history[agent]
    {
      entries := if agent in history then history[agent] else [];
      var cutoff := call.time - config.window;
      entries := Newer(entries, cutoff);
      entries := entries + [Entry(hash, call.time)];
      if |entries| > config.maxHistory {
        entries := entries[|entries| - config.maxHistory..];
      }
      if agent !in history {
        order := order + [agent];
      }
      history := history[agent := entries];
      calls := calls[agent := (if agent in calls then calls[agent] else []) + [call]];
    }

    method EvictIfNeeded()
      requires ValidConfig(config)
      modifies this
      ensures Model() == Evict(config, old(Model()))
    {
      while |order| > config.maxAgents
        invariant Evict(config, Model()) == Evict(config, old(Model()))
        decreases |order|
      {
        var oldest := order[0];
        history := history - {oldest};
        calls := calls - {oldest};
        order := order[1..];
      }
    }

    method ResetAgent(agent: Agent)
      modifies this
      ensures Model() == Forget(old(Model()), agent)
    {
      order := Without(order, agent);
      history := history - {agent};
      calls := calls - {agent};
    }

    method ResetEverything()
      modifies this
      ensures Model() == FRESH
    {
      order, history, calls := [], map[], map[];
    }
  }
}
