/** The result channel's operations as functions of the world it calls into. */
module ChannelModel {
  import opened Wrappers
  import opened Cluster
  import opened Retry
  import opened PortModel

  function PutOp(cfg: Config, script: Script, w: World, qid: nat, bytes: Bytes): (World, Result<()>) {
    if cfg.Size() == 0 then (w, Err(DistributedError))
    else
      var (w', outcome) := Transact(cfg, script, w, Put(qid, bytes));
      (w', if outcome.Answered? && outcome.reply.rc.Success? then Ok(()) else Err(DistributedError))
  }

  /** Not finding a result is an answer, not an error. */
  function TryGetOp(cfg: Config, script: Script, consume: bool, w: World, qid: nat): (World, Result<Option<Bytes>>) {
    if cfg.Size() == 0 then (w, Err(DistributedError))
    else
      var (w', outcome) := Transact(cfg, script, w, Get(qid, consume));
      (w',
       if outcome.Answered? && outcome.reply.rc.Success? then
         if outcome.reply.body.Found? then Ok(Some(outcome.reply.body.bytes)) else Ok(None)
       else Err(DistributedError))
  }

  function GetOp(cfg: Config, script: Script, consume: bool, w: World, qid: nat): (World, Result<Bytes>) {
    var (w', r) := TryGetOp(cfg, script, consume, w, qid);
    (w', if r.Ok? && r.value.Some? then Ok(r.value.value) else Err(DistributedError))
  }

  datatype ChannelCommand = DoPut(qid: nat, bytes: Bytes) | DoTryGet(qid: nat)

  function ApplyChannel(cfg: Config, script: Script, consume: bool, w: World, c: ChannelCommand): World {
    match c
    case DoPut(qid, bytes) => PutOp(cfg, script, w, qid, bytes).0
    case DoTryGet(qid) => TryGetOp(cfg, script, consume, w, qid).0
  }

  function RunChannel(cfg: Config, script: Script, consume: bool, w: World, commands: seq<ChannelCommand>): World
    decreases |commands|
  {
    if commands == [] then w
    else ApplyChannel(cfg, script, consume, RunChannel(cfg, script, consume, w, commands[..|commands| - 1]), commands[|commands| - 1])
  }
}
