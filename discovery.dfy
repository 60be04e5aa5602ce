/** The discovery callback: an announcement of an sdr_server with a usable data port
    replaces the server address the receiver will connect to; goodbyes and every
    other announcement leave it alone. */
module Discovery {

  /** g_server_host and g_server_port. */
  datatype Target = Target(host: seq<char>, port: int)

  /** The host buffer holds 256 chars and the copy keeps the last one for the
      terminating NUL. */
  const HostCapacity: nat := 255

  const DefaultHost: seq<char> := "localhost"
  /** IQ_DEFAULT_PORT. */
  const DefaultPort: int := 4536

  /** The target before any announcement or option: localhost on the default port. */
  function InitialTarget(): (t: Target)
    ensures t.host == "localhost" && t.port == 4536
    ensures |t.host| <= HostCapacity && t.port > 0
  {
    Target(DefaultHost, DefaultPort)
  }

  /** The announcement the callback acts on. */
  predicate Accepts(service: seq<char>, dataPort: int, isBye: bool)
  {
    !isBye && service == "sdr_server" && dataPort > 0
  }

  /** on_service_found(id, service, ip, ctrlPort, dataPort, caps, isBye): the id,
      control port and capabilities play no part. */
  function OnServiceFound(t: Target, id: seq<char>, service: seq<char>, ip: seq<char>,
                          ctrlPort: int, dataPort: int, caps: seq<char>, isBye: bool): (r: Target)
    ensures Accepts(service, dataPort, isBye) ==>
      r.port == dataPort && |r.host| == (if |ip| <= HostCapacity then |ip| else HostCapacity)
      && r.host == ip[..|r.host|]
    ensures !Accepts(service, dataPort, isBye) ==> r == t
  {
    if isBye then t
    else if service == "sdr_server" && dataPort > 0 then
      Target(if |ip| <= HostCapacity then ip else ip[..HostCapacity], dataPort)
    else t
  }

  /** The host never outgrows its buffer, and once an announcement has been taken
      the port is positive. */
  lemma OnServiceFoundKeepsBounds(t: Target, id: seq<char>, service: seq<char>, ip: seq<char>,
                                  ctrlPort: int, dataPort: int, caps: seq<char>, isBye: bool)
    requires |t.host| <= HostCapacity && t.port > 0
    ensures var r := OnServiceFound(t, id, service, ip, ctrlPort, dataPort, caps, isBye);
      |r.host| <= HostCapacity && r.port > 0
  {
  }

  /** Hearing the same announcement twice is the same as hearing it once. */
  lemma OnServiceFoundIdempotent(t: Target, id: seq<char>, service: seq<char>, ip: seq<char>,
                                 ctrlPort: int, dataPort: int, caps: seq<char>, isBye: bool)
    ensures var r := OnServiceFound(t, id, service, ip, ctrlPort, dataPort, caps, isBye);
      OnServiceFound(r, id, service, ip, ctrlPort, dataPort, caps, isBye) == r
  {
  }

  /** The last accepted announcement wins: what came before it is forgotten. */
  lemma LastAnnouncementWins(t: Target, u: Target, id: seq<char>, service: seq<char>, ip: seq<char>,
                             ctrlPort: int, dataPort: int, caps: seq<char>)
    requires Accepts(service, dataPort, false)
    ensures OnServiceFound(t, id, service, ip, ctrlPort, dataPort, caps, false)
         == OnServiceFound(u, id, service, ip, ctrlPort, dataPort, caps, false)
  {
  }

  /** One announcement as the callback receives it (id, control port and
      capabilities play no part and are left out). */
  datatype Announcement = Announcement(service: seq<char>, ip: seq<char>, dataPort: int, isBye: bool)

  /** The target after hearing a run of announcements, in order. */
  function Hear(t: Target, heard: seq<Announcement>): Target
    decreases |heard|
  {
    if |heard| == 0 then t
    else
      var a := heard[|heard| - 1];
      OnServiceFound(Hear(t, heard[..|heard| - 1]), "", a.service, a.ip, 0, a.dataPort, "", a.isBye)
  }

  /** Starting from the initial target, any run of announcements leaves a host that
      fits its buffer and a positive port; when none of them is accepted, the
      target is still localhost on the default port, which is what main tests to
      decide that discovery found nothing. */
  lemma {:induction false} HearFromInitial(heard: seq<Announcement>)
    ensures var t := Hear(InitialTarget(), heard);
      && |t.host| <= HostCapacity && t.port > 0
      && ((forall k :: 0 <= k < |heard| ==> !Accepts(heard[k].service, heard[k].dataPort, heard[k].isBye))
            ==> t == InitialTarget())
    decreases |heard|
  {
    if |heard| > 0 {
      var init := heard[..|heard| - 1];
      HearFromInitial(init);
      var a := heard[|heard| - 1];
      OnServiceFoundKeepsBounds(Hear(InitialTarget(), init), "", a.service, a.ip, 0, a.dataPort, "", a.isBye);
      if forall k :: 0 <= k < |heard| ==> !Accepts(heard[k].service, heard[k].dataPort, heard[k].isBye) {
        assert forall k :: 0 <= k < |init| ==> init[k] == heard[k];
      }
    }
  }
}
