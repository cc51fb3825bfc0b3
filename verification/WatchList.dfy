/** The watch list over whole runs of the event loop: any events, in any order,
    for any slots, with any answers in between. */
module WatchList {
  import opened Common
  import opened CmdObj
  import opened MsgQueue
  import opened Reactor

  /** What one turn of the loop does: an answer taken from the back queue, or a
      ready event. */
  datatype NetStep = Answer(c: Cmd) | Ready(e: Event)

  ghost predicate StepOk(st: NetStep) {
    match st
    case Answer(c) => FdOk(c.iFd)
    case Ready(e) => EventFits(e)
  }

  function NetNext(n: Net, st: NetStep): Net
    requires Sized(n) && StepOk(st)
  {
    match st
    case Answer(c) => Reply(n, c)
    case Ready(e) => Handled(n, ActionOf(n, e), e)
  }

  /** RunEventLoop begins by watching the two channels that were opened; a
      channel that is not used has descriptor 0. */
  function Watched(n: Net, usock: int): Net
    requires 0 <= n.svr < |n.items| && 0 <= usock < |n.items|
  {
    var n1 := if n.svr != 0 then AddToWatchList(n, n.svr, TCP_SERVER_ACCEPT, None, false) else n;
    if usock != 0 then AddToWatchList(n1, usock, UDP_READ, None, false) else n1
  }

  /** The loop begins with the channels that are used and open, each watched for
      reading, and nothing else. */
  lemma WatchesChannels(n: Net, usock: int)
    requires Constructed(n, usock)
    ensures var n' := Watched(n, usock);
            && (forall fd :: fd in n'.epoll <==> fd != 0 && fd in {n.svr, usock} && fd in n.open)
            && (forall fd :: fd in n'.epoll ==> n'.epoll[fd] == In)
            && (forall fd :: fd in n'.vec <==> fd in n'.epoll)
            && n' == n.(vec := n'.vec, epoll := n'.epoll, iEvents := |n'.vec|)
  {
  }

  ghost predicate NetStart(n: Net) {
    exists n0: Net, usock :: Constructed(n0, usock) && n == Watched(n0, usock)
  }

  ghost predicate Constructed(n: Net, usock: int) {
    && Sized(n) && FdOk(usock) && n.vec == [] && n.iEvents == 0 && n.epoll == map[]
  }

  /** That the sizes are right is no demand on a step: they are right at the
      start, and every step keeps them, as RunSized shows. */
  ghost predicate NetStepAt(tr: seq<Net>, steps: seq<NetStep>, i: int) {
    && 0 <= i < |steps| && i + 1 < |tr| && StepOk(steps[i])
    && (Sized(tr[i]) ==> tr[i + 1] == NetNext(tr[i], steps[i]))
  }

  ghost predicate NetRun(tr: seq<Net>, steps: seq<NetStep>) {
    |tr| == |steps| + 1 && NetStart(tr[0]) && forall i | 0 <= i < |steps| :: NetStepAt(tr, steps, i)
  }

  lemma StartSized(n: Net)
    requires NetStart(n)
    ensures Sized(n)
  {
  }

  lemma {:induction false} RunSized(tr: seq<Net>, steps: seq<NetStep>, i: nat)
    requires NetRun(tr, steps) && i < |tr|
    ensures Sized(tr[i])
  {
    if i == 0 {
      StartSized(tr[0]);
    } else {
      hide Sized, NetNext, StepOk;
      assert NetStepAt(tr, steps, i - 1);
      RunSized(tr, steps, i - 1);
      SizedKept(tr[i - 1], steps[i - 1]);
    }
  }

  /** The watched descriptors that a failed read has closed up to moment i. */
  ghost function FailedReads(tr: seq<Net>, steps: seq<NetStep>, i: nat): set<int>
    requires NetRun(tr, steps) && i < |tr|
  {
    if i == 0 then {}
    else
      assert NetStepAt(tr, steps, i - 1);
      RunSized(tr, steps, i - 1);
      var before := FailedReads(tr, steps, i - 1);
      match steps[i - 1]
      case Answer(_) => before
      case Ready(e) => before + StaleBy(tr[i - 1], ActionOf(tr[i - 1], e), e.reading)
  }

  lemma SizedKept(n: Net, st: NetStep)
    requires Sized(n) && StepOk(st)
    ensures Sized(NetNext(n, st))
  {
    if st.Ready? && ActionOf(n, st.e).Accepts? { ConnSized(n, st.e.conns); }
  }

  lemma {:induction false} ConnSized(n: Net, conns: seq<Conn>)
    requires Sized(n)
    requires forall c | c in conns :: 0 <= c.fd < MAX_MSG_SIZE
    ensures Sized(DoConn(n, conns))
    decreases |conns|
  {
    if conns != [] {
      assert conns[0] in conns;
      ConnSized(AcceptOne(n, conns[0]), conns[1..]);
    }
  }

  lemma StartListed(n: Net)
    requires NetStart(n)
    ensures Listed(n, {})
  {
    var n0: Net, usock :| Constructed(n0, usock) && n == Watched(n0, usock);
    var n1 := if n0.svr != 0 then AddToWatchList(n0, n0.svr, TCP_SERVER_ACCEPT, None, false) else n0;
    if n0.svr != 0 { AddKeepsListed(n0, n0.svr, TCP_SERVER_ACCEPT, None, false, {}); }
    if usock != 0 { AddKeepsListed(n1, usock, UDP_READ, None, false, {}); }
  }

  lemma {:induction false} RunListed(tr: seq<Net>, steps: seq<NetStep>, i: nat)
    requires NetRun(tr, steps) && i < |tr|
    ensures Listed(tr[i], FailedReads(tr, steps, i))
  {
    if i == 0 {
      StartListed(tr[0]);
    } else {
      hide Listed, Reply, Handled, ActionOf;
      assert NetStepAt(tr, steps, i - 1);
      RunSized(tr, steps, i - 1);
      RunListed(tr, steps, i - 1);
      var stale := FailedReads(tr, steps, i - 1);
      match steps[i - 1]
      case Answer(c) => ReplyKeepsListed(tr[i - 1], c, stale);
      case Ready(e) => EventKeepsListed(tr[i - 1], e, stale);
    }
  }

  /** Main result: the list never holds a descriptor twice, the counter is its
      length, and the kernel watches a part of it: all of it exactly as long as
      no read of a watched descriptor has failed. */
  lemma WatchListLaw(tr: seq<Net>, steps: seq<NetStep>, i: nat)
    requires NetRun(tr, steps) && i < |tr|
    ensures var n := tr[i];
            && NoRepeats(n.vec) && n.iEvents == |n.vec|
            && (forall fd :: fd in n.epoll ==> fd in n.vec)
            && ((forall fd :: fd in n.vec ==> fd in n.epoll) <==> (forall fd :: fd !in FailedReads(tr, steps, i)))
  {
    RunListed(tr, steps, i);
  }

  lemma {:induction false} FailedReadsGrow(tr: seq<Net>, steps: seq<NetStep>, i: nat, j: nat)
    requires NetRun(tr, steps) && i <= j < |tr|
    ensures FailedReads(tr, steps, i) <= FailedReads(tr, steps, j)
  {
    if i < j { FailedReadsGrow(tr, steps, i, j - 1); }
  }

  /** A descriptor that went stale stays on the list and is never watched again,
      whoever is given its number later. */
  lemma StaleForGood(tr: seq<Net>, steps: seq<NetStep>, i: nat, j: nat, fd: int)
    requires NetRun(tr, steps) && i <= j < |tr| && fd in FailedReads(tr, steps, i)
    ensures fd in tr[j].vec && fd !in tr[j].epoll
  {
    FailedReadsGrow(tr, steps, i, j);
    RunListed(tr, steps, j);
  }
}
