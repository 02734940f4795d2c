/** What can be observed of a run besides its state: the calls that waited, the codes they returned, and
    everything the daemon did, in its order. */
module MixerRuns {
  import opened Basics
  import opened MixerCache
  import opened MixerDaemon
  import opened MixerProtocol

  /** A call has returned: where it stood, the place of the reply that ended it among those heard, its code. */
  datatype Return = Return(phase: Phase, at: nat, code: int)

  /** The daemon served a request, before and after which it was as told, with `count` packets from place
      `first` on among those said; or it polled. */
  datatype Service =
    | Served(request: Request, device: Device, before: Server, after: Server, first: nat, count: nat)
    | Polled(devices: seq<Device>, nmixers: int)

  /** `calls` are the phases in which the calls began that had to wait. */
  datatype Log = Log(system: System, calls: seq<Phase>, returned: seq<Return>, services: seq<Service>)

  ghost predicate ReadsReply(s: System) {
    s.client.phase.Blocked() && s.toClient != [] && (!s.toClient[0].unsolicited || s.client.phase.Welcoming?)
  }

  /** What the call that is blocked returns on the packet in front, if that ends it. */
  function ReadCode(s: System): Option<int>
    requires s.client.phase.Blocked() && s.toClient != []
  {
    if s.toClient[0].unsolicited && !s.client.phase.Welcoming? then None else CodeOf(s.client.phase, s.toClient[0])
  }

  ghost function LogNext(l: Log, step: Step): (l': Log)
    requires l.system.Valid()
    ensures l'.system == Next(l.system, step)
  {
    var s, s' := l.system, Next(l.system, step);
    if !Enabled(s, step) then l
    else match step
      case ClientCalls(_) =>
        l.(system := s', calls := l.calls + if s'.client.phase.Blocked() then [s'.client.phase] else [])
      case ClientReads =>
        var code := ReadCode(s);
        l.(system := s',
           returned := l.returned + if code.Some? then [Return(s.client.phase, |s.heard|, code.value)] else [])
      case ClientPolls => l.(system := s')
      case ServerServes(d) =>
        l.(system := s', services := l.services +
           [Served(s.toServer[0], d, s.server, s'.server, |s.said|, |s'.said| - |s.said|)])
      case ServerPolls(devices, nmixers) => l.(system := s', services := l.services + [Polled(devices, nmixers)])
  }

  /** The run with everything observed; connecting is the first call, and the welcome has been said. */
  ghost function Run(server: Server, steps: seq<Step>): (l: Log)
    requires server.Valid()
    ensures l.system == Exec(Init0(server), steps)
  {
    if steps == [] then Log(Init0(server), [Welcoming], [], [])
    else LogNext(Run(server, steps[..|steps| - 1]), steps[|steps| - 1])
  }
}
