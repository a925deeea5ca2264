/** What becomes of the jobs on the two work lists of a conversation (cntrl.c, gtwvec in anlwrk.c). */
module UucpJobs {
  import opened UucpConversation

  // ------------------------------------------------------------------ no job is lost

  /** The usable entries of a work list. */
  function Jobs(work: seq<Work>): seq<Job> {
    if work == [] then [] else (if work[0].Usable? then [work[0].job] else []) + Jobs(work[1..])
  }

  /** A job that has been taken from a list, and whether it was asked for or dropped. */
  datatype Taking = Taking(job: Job, asked: bool)

  /** What a side takes in one step, from the outside: it puts a request on its link, or, being able to ask, it
    * changes without a word. */
  function TakenIn(me: Side, me': Side, link: seq<Packet>, link': seq<Packet>): seq<Taking> {
    if |link'| == |link| + 1 && link'[|link|].Message? && link'[|link|].arg.Request?
    then [Taking(link'[|link|].arg.job, true)]
    else if me' != me && CanAsk(me) && link' == link then [Taking(me'.job, false)]
    else []
  }

  function JobsOf(ts: seq<Taking>): seq<Job> {
    if ts == [] then [] else JobsOf(ts[..|ts| - 1]) + [ts[|ts| - 1].job]
  }

  lemma JobsOfSnoc(ts: seq<Taking>, more: seq<Taking>)
    requires |more| <= 1
    ensures JobsOf(ts + more) == JobsOf(ts) + JobsOf(more)
  {
    if more == [] {
      assert ts + more == ts;
    } else {
      assert (ts + more)[..|ts + more| - 1] == ts && more[..0] == [];
    }
  }

  // Entries without a usable line are passed over.
  lemma {:induction false} NextJobKeeps(work: seq<Work>)
    ensures Jobs(NextJob(work)) == Jobs(work)
  {
    if work != [] && work[0].Spent? { NextJobKeeps(work[1..]); }
  }

  lemma SideTakes(me: Side, inbox: seq<Packet>, link: seq<Packet>, d: Choice, me': Side, inbox': seq<Packet>,
                  out: seq<Packet>)
    requires SideStep(me, inbox, d, me', inbox', out)
    ensures var taken := TakenIn(me, me', link, link + out);
      |taken| <= 1 && Jobs(me.work) == JobsOf(taken) + Jobs(me'.work) && (d.accept ==> taken == [] || taken[0].asked)
  {
    if Listens(me) {
      ListenerTakesNothing(me, inbox, link, d, me', inbox', out);
    } else if me.pc.Top? {
      LeadTakes(me, inbox, link, d, me', inbox', out);
    } else {
      assert (link + out)[|link|] == out[0];
    }
  }

  lemma ListenerTakesNothing(me: Side, inbox: seq<Packet>, link: seq<Packet>, d: Choice, me': Side,
                             inbox': seq<Packet>, out: seq<Packet>)
    requires SideStep(me, inbox, d, me', inbox', out) && Listens(me)
    ensures TakenIn(me, me', link, link + out) == [] && me'.work == me.work
  {
    assert out != [] ==> (link + out)[|link|] == out[0];
  }

  lemma LeadTakes(me: Side, inbox: seq<Packet>, link: seq<Packet>, d: Choice, me': Side, inbox': seq<Packet>,
                  out: seq<Packet>)
    requires SideStep(me, inbox, d, me', inbox', out) && CanAsk(me)
    ensures var taken := TakenIn(me, me', link, link + out);
      |taken| <= 1 && Jobs(me.work) == JobsOf(taken) + Jobs(me'.work) && (d.accept ==> taken == [] || taken[0].asked)
  {
    NextJobKeeps(me.work);
    var taken := TakenIn(me, me', link, link + out);
    assert out != [] ==> (link + out)[|link|] == out[0];
    assert out == [] ==> link + out == link;
    if taken != [] { assert taken[..0] == []; }
  }

  // What the sides have taken in the first i steps of a run.
  function TakenByA(r: seq<State>, i: nat): seq<Taking>
    requires i < |r|
  {
    if i == 0 then [] else TakenByA(r, i - 1) + TakenIn(r[i - 1].a, r[i].a, r[i - 1].ab, r[i].ab)
  }

  function TakenByB(r: seq<State>, i: nat): seq<Taking>
    requires i < |r|
  {
    if i == 0 then [] else TakenByB(r, i - 1) + TakenIn(r[i - 1].b, r[i].b, r[i - 1].ba, r[i].ba)
  }

  // One step of either side.
  lemma StepTakes(st: State, st': State)
    requires Step(st, st')
    ensures var ta, tb := TakenIn(st.a, st'.a, st.ab, st'.ab), TakenIn(st.b, st'.b, st.ba, st'.ba);
      && |ta| <= 1 && Jobs(st.a.work) == JobsOf(ta) + Jobs(st'.a.work)
      && |tb| <= 1 && Jobs(st.b.work) == JobsOf(tb) + Jobs(st'.b.work)
  {
    if d, out :| SideStep(st.a, st.ba, d, st'.a, st'.ba, out) && st'.ab == st.ab + out && st'.b == st.b {
      SideTakes(st.a, st.ba, st.ab, d, st'.a, st'.ba, out);
    } else {
      var d, out :| SideStep(st.b, st.ab, d, st'.b, st'.ab, out) && st'.ba == st.ba + out && st'.a == st.a;
      SideTakes(st.b, st.ab, st.ba, d, st'.b, st'.ab, out);
    }
  }

  lemma Chain(all: seq<Job>, ts: seq<Taking>, more: seq<Taking>, left: seq<Job>, left': seq<Job>)
    requires all == JobsOf(ts) + left && left == JobsOf(more) + left' && |more| <= 1
    ensures all == JobsOf(ts + more) + left'
  {
    JobsOfSnoc(ts, more);
  }

  /** In every run and for each side: the jobs it had are, in their order, those it has taken, each asked for or
    * dropped, and then those that are still on its list. */
  lemma {:induction false} NoJobLost(r: seq<State>, i: nat)
    requires r != [] && Steps(r) && i < |r|
    ensures Jobs(r[0].a.work) == JobsOf(TakenByA(r, i)) + Jobs(r[i].a.work)
    ensures Jobs(r[0].b.work) == JobsOf(TakenByB(r, i)) + Jobs(r[i].b.work)
  {
    if i > 0 {
      NoJobLost(r, i - 1);
      RunStep(r, i - 1);
      var st, st' := r[i - 1], r[i];
      StepTakes(st, st');
      Chain(Jobs(r[0].a.work), TakenByA(r, i - 1), TakenIn(st.a, st'.a, st.ab, st'.ab), Jobs(st.a.work),
            Jobs(st'.a.work));
      Chain(Jobs(r[0].b.work), TakenByB(r, i - 1), TakenIn(st.b, st'.b, st.ba, st'.ba), Jobs(st.b.work),
            Jobs(st'.b.work));
    }
  }

  // ------------------------------------------------------------------ willing sides

  /** A step whose choice is to go on. */
  ghost predicate Willing(st: State, st': State) {
    || (exists d: Choice, out ::
          d.accept && SideStep(st.a, st.ba, d, st'.a, st'.ba, out) && st'.ab == st.ab + out && st'.b == st.b)
    || (exists d: Choice, out ::
          d.accept && SideStep(st.b, st.ab, d, st'.b, st'.ab, out) && st'.ba == st.ba + out && st'.a == st.a)
  }

  function OfKind(js: seq<Job>, k: Kind): seq<Job> {
    if js == [] then [] else OfKind(js[..|js| - 1], k) + if js[|js| - 1].kind == k then [js[|js| - 1]] else []
  }

  // No request has been refused.
  predicate Unrefused(link: seq<Packet>) {
    forall p :: p in link ==> p.Message? && (p.letter.S? || p.letter.R?) ==> !p.arg.No?
  }

  // The job that a leading side has asked to send, or to fetch, and has not done so yet.
  function ToSend(m: Side): seq<Job> {
    if m.role.Master? && m.job.kind.SendFile? && (m.pc == Await(S) || m.pc.Writing?) then [m.job] else []
  }

  function ToGet(m: Side): seq<Job> {
    if m.role.Master? && m.job.kind.FetchFile? && (m.pc == Await(R) || m.pc.Reading?) then [m.job] else []
  }

  /** Beyond x sent and y got before it led, a side has sent and got what it has asked for. */
  predicate Tally(m: Side, x: seq<Job>, y: seq<Job>, asked: seq<Job>) {
    && m.sent + ToSend(m) == x + OfKind(asked, SendFile)
    && m.got + ToGet(m) == y + OfKind(asked, FetchFile)
  }

  lemma OfKindSnoc(js: seq<Job>, j: Job, k: Kind)
    ensures OfKind(js + [j], k) == OfKind(js, k) + if j.kind == k then [j] else []
  {
    assert (js + [j])[..|js|] == js;
  }

  // What a step of the leading side does to what it has asked for.
  ghost predicate Progress(m: Side, m': Side, taken: seq<Taking>) {
    m'.mayLead == m.mayLead &&
    if taken == [] then m'.sent + ToSend(m') == m.sent + ToSend(m) && m'.got + ToGet(m') == m.got + ToGet(m)
    else
      && (m'.sent, m'.got) == (m.sent, m.got) && ToSend(m) == ToGet(m) == [] && |taken| == 1
      && ToSend(m') == (if taken[0].job.kind.SendFile? then [taken[0].job] else [])
      && ToGet(m') == (if taken[0].job.kind.FetchFile? then [taken[0].job] else [])
  }

  lemma BusyProgress(m: Side, s: Side, ms: seq<Packet>, sm: seq<Packet>, d: Choice, m': Side, sm': seq<Packet>,
                     out: seq<Packet>)
    requires Busy(m, s, ms, sm) && SideStep(m, sm, d, m', sm', out) && d.accept && Unrefused(sm)
    ensures Progress(m, m', TakenIn(m, m', ms, ms + out)) && Unrefused(out)
  {
    if m.pc.Writing? { assert m'.sent + [] == m.sent + [m.job]; }
    if m.pc.Reading? { assert m'.got + [] == m.got + [m.job]; }
    assert out != [] ==> (ms + out)[|ms|] == out[0];
    assert sm != [] ==> sm[0] in sm;
  }

  lemma LeaderProgress(m: Side, s: Side, ms: seq<Packet>, sm: seq<Packet>, d: Choice, m': Side, sm': seq<Packet>,
                       out: seq<Packet>)
    requires Phase(m, s, ms, sm) && SideStep(m, sm, d, m', sm', out) && d.accept && Unrefused(sm)
    ensures Progress(m, m', TakenIn(m, m', ms, ms + out)) && Unrefused(out)
  {
    assert out != [] ==> (ms + out)[|ms|] == out[0];
    if Busy(m, s, ms, sm) { BusyProgress(m, s, ms, sm, d, m', sm', out); }
  }

  lemma LeaderLeads(m: Side, s: Side, ms: seq<Packet>, sm: seq<Packet>, d: Choice, m': Side, sm': seq<Packet>,
                    out: seq<Packet>)
    requires Phase(m, s, ms, sm) && SideStep(m, sm, d, m', sm', out)
    ensures Phase(m', s, ms + out, sm')
  {
    if Busy(m, s, ms, sm) { BusyLeaderStep(m, s, ms, sm, d, m', sm', out); }
  }

  lemma ProgressTallies(m: Side, m': Side, taken: seq<Taking>, x: seq<Job>, y: seq<Job>, asked: seq<Job>)
    requires Progress(m, m', taken) && Tally(m, x, y, asked)
    ensures Tally(m', x, y, asked + JobsOf(taken))
  {
    if taken == [] {
      assert asked + JobsOf(taken) == asked;
    } else {
      assert JobsOf(taken) == [taken[0].job] by { assert taken[..0] == []; }
      OneAsked(m.sent, ToSend(m'), x, asked, taken[0].job, SendFile);
      OneAsked(m.got, ToGet(m'), y, asked, taken[0].job, FetchFile);
    }
  }

  lemma OneAsked(done: seq<Job>, due: seq<Job>, x: seq<Job>, asked: seq<Job>, j: Job, k: Kind)
    requires done + [] == x + OfKind(asked, k) && due == if j.kind == k then [j] else []
    ensures done + due == x + OfKind(asked + [j], k)
  {
    OfKindSnoc(asked, j, k);
    assert done + [] == done;
    assert x + (OfKind(asked, k) + due) == x + OfKind(asked, k) + due;
  }

  // A step of the side that follows takes no job and refuses nothing. Either it goes on following, or it takes over
  // the lead from a side that has no more to ask for.
  lemma FollowerGoesOn(m: Side, s: Side, ms: seq<Packet>, sm: seq<Packet>, d: Choice, s': Side, ms': seq<Packet>,
                       out: seq<Packet>)
    requires Phase(m, s, ms, sm) && SideStep(s, ms, d, s', ms', out) && d.accept && Unrefused(ms)
    ensures TakenIn(s, s', sm, sm + out) == [] && Unrefused(out) && NoTemp !in out && s'.mayLead == s.mayLead
    ensures Phase(m, s', ms', sm + out) || TakesOver(m, s, sm, s', ms', sm + out)
  {
    assert out != [] ==> (sm + out)[|sm|] == out[0];
  }

  ghost predicate TakesOver(m: Side, s: Side, sm: seq<Packet>, s': Side, ms': seq<Packet>, sm': seq<Packet>) {
    && Phase(s', m, sm', ms') && sm == [] && m.pc == Await(H) && s.mayLead && s.work != []
    && (s'.sent, s'.got) == (s.sent, s.got) && s'.pc == Top
  }

  // ------------------------------------------------------------------ willing runs

  /** While the first master leads, and after the other side has taken over: what has been asked for is done, but for
    * the job in hand. */
  ghost predicate Stage(st: State, askedA: seq<Job>, askedB: seq<Job>) {
    || (Phase(st.a, st.b, st.ab, st.ba) && askedB == [] && Tally(st.a, [], [], askedA))
    || (Phase(st.b, st.a, st.ba, st.ab) && st.b.mayLead &&
        Tally(st.b, OfKind(askedA, FetchFile), OfKind(askedA, SendFile), askedB))
  }

  ghost predicate OnTrack(st: State, ta: seq<Taking>, tb: seq<Taking>) {
    Stage(st, JobsOf(ta), JobsOf(tb)) && Inv(st) && Unrefused(st.ab) && Unrefused(st.ba) && WorkedOff(st.a)
  }

  // A side whose step it is not takes nothing.
  lemma IdleTakesNothing(me: Side, link: seq<Packet>, link': seq<Packet>)
    requires |link'| <= |link|
    ensures TakenIn(me, me, link, link') == []
  {
  }

  lemma UnrefusedOn(link: seq<Packet>, out: seq<Packet>, inbox: seq<Packet>, inbox': seq<Packet>)
    requires Unrefused(link) && Unrefused(out) && Unrefused(inbox)
    requires inbox' == inbox || (inbox != [] && inbox' == inbox[1..])
    ensures Unrefused(link + out) && Unrefused(inbox')
    ensures NoTemp !in link + out && NoTemp !in inbox'
  {
    assert forall p :: p in inbox' ==> p in inbox;
  }

  // The first master's steps.
  lemma FirstMasterSteps(st: State, st': State, d: Choice, out: seq<Packet>, ta: seq<Taking>, tb: seq<Taking>)
    requires OnTrack(st, ta, tb) && d.accept
    requires SideStep(st.a, st.ba, d, st'.a, st'.ba, out) && st'.ab == st.ab + out && st'.b == st.b
    ensures var ta', tb' := ta + TakenIn(st.a, st'.a, st.ab, st'.ab), tb + TakenIn(st.b, st'.b, st.ba, st'.ba);
      Stage(st', JobsOf(ta'), JobsOf(tb')) && Unrefused(out)
  {
    var taken := TakenIn(st.a, st'.a, st.ab, st'.ab);
    IdleTakesNothing(st.b, st.ba, st'.ba);
    assert tb + [] == tb;
    SideTakes(st.a, st.ba, st.ab, d, st'.a, st'.ba, out);
    JobsOfSnoc(ta, taken);
    if Phase(st.a, st.b, st.ab, st.ba) && JobsOf(tb) == [] && Tally(st.a, [], [], JobsOf(ta)) {
      LeaderProgress(st.a, st.b, st.ab, st.ba, d, st'.a, st'.ba, out);
      LeaderLeads(st.a, st.b, st.ab, st.ba, d, st'.a, st'.ba, out);
      ProgressTallies(st.a, st'.a, taken, [], [], JobsOf(ta));
    } else {
      FollowerGoesOn(st.b, st.a, st.ba, st.ab, d, st'.a, st'.ba, out);
      assert JobsOf(ta) + [] == JobsOf(ta);
    }
  }

  // The other side's steps.
  lemma OtherSteps(st: State, st': State, d: Choice, out: seq<Packet>, ta: seq<Taking>, tb: seq<Taking>)
    requires OnTrack(st, ta, tb) && d.accept
    requires SideStep(st.b, st.ab, d, st'.b, st'.ab, out) && st'.ba == st.ba + out && st'.a == st.a
    ensures var ta', tb' := ta + TakenIn(st.a, st'.a, st.ab, st'.ab), tb + TakenIn(st.b, st'.b, st.ba, st'.ba);
      Stage(st', JobsOf(ta'), JobsOf(tb')) && Unrefused(out)
  {
    var taken := TakenIn(st.b, st'.b, st.ba, st'.ba);
    IdleTakesNothing(st.a, st.ab, st'.ab);
    assert ta + [] == ta;
    SideTakes(st.b, st.ab, st.ba, d, st'.b, st'.ab, out);
    JobsOfSnoc(tb, taken);
    if Phase(st.a, st.b, st.ab, st.ba) && JobsOf(tb) == [] && Tally(st.a, [], [], JobsOf(ta)) {
      FollowerGoesOn(st.a, st.b, st.ab, st.ba, d, st'.b, st'.ab, out);
      assert JobsOf(tb) + [] == JobsOf(tb);
      if !Phase(st.a, st'.b, st'.ab, st'.ba) { LeadPasses(st, st', d, out, JobsOf(ta)); }
    } else {
      LeaderProgress(st.b, st.a, st.ba, st.ab, d, st'.b, st'.ab, out);
      LeaderLeads(st.b, st.a, st.ba, st.ab, d, st'.b, st'.ab, out);
      ProgressTallies(st.b, st'.b, taken, OfKind(JobsOf(ta), FetchFile), OfKind(JobsOf(ta), SendFile), JobsOf(tb));
    }
  }

  // The other side takes over.
  lemma LeadPasses(st: State, st': State, d: Choice, out: seq<Packet>, asked: seq<Job>)
    requires Inv(st) && Tally(st.a, [], [], asked)
    requires SideStep(st.b, st.ab, d, st'.b, st'.ab, out) && st'.ba == st.ba + out && st'.a == st.a
    requires TakesOver(st.a, st.b, st.ba, st'.b, st'.ab, st'.ba) && NoTemp !in out
    ensures Tally(st'.b, OfKind(asked, FetchFile), OfKind(asked, SendFile), [])
  {
    SideKeeps(st.b, st.a, st.ab, st.ba, d, st'.b, st'.ab, out);
    assert InFlight([]) == [];
    assert st'.b.got + [] == st'.b.got && st'.b.sent + [] == st'.b.sent;
    assert st.a.sent + [] == st.a.sent && st.a.got + [] == st.a.got;
  }

  lemma WillingStepKeeps(st: State, st': State, ta: seq<Taking>, tb: seq<Taking>)
    requires OnTrack(st, ta, tb) && Willing(st, st')
    ensures OnTrack(st', ta + TakenIn(st.a, st'.a, st.ab, st'.ab), tb + TakenIn(st.b, st'.b, st.ba, st'.ba))
    ensures !OutOfTemp(st') && st'.b.mayLead == st.b.mayLead && Step(st, st')
  {
    if d: Choice, out :| d.accept && SideStep(st.a, st.ba, d, st'.a, st'.ba, out) && st'.ab == st.ab + out &&
                         st'.b == st.b {
      FirstMasterSteps(st, st', d, out, ta, tb);
      UnrefusedOn(st.ab, out, st.ba, st'.ba);
      SideWorksOff(st.a, st.ba, d, st'.a, st'.ba, out);
    } else {
      var d: Choice, out :| d.accept && SideStep(st.b, st.ab, d, st'.b, st'.ab, out) && st'.ba == st.ba + out &&
                            st'.a == st.a;
      OtherSteps(st, st', d, out, ta, tb);
      UnrefusedOn(st.ba, out, st.ab, st'.ab);
      MayLeadStays(st.b, st.ab, d, st'.b, st'.ab, out);
    }
    StepKeepsInv(st, st');
  }

  lemma MayLeadStays(me: Side, inbox: seq<Packet>, d: Choice, me': Side, inbox': seq<Packet>, out: seq<Packet>)
    requires SideStep(me, inbox, d, me', inbox', out)
    ensures me'.mayLead == me.mayLead
  {
  }

  /** A run in which every choice is to go on. */
  ghost predicate WillingRun(r: seq<State>) { Run(r) && forall i :: 0 <= i < |r| - 1 ==> WillingAt(r, i) }

  ghost predicate WillingAt(r: seq<State>, i: nat)
    requires i + 1 < |r|
  {
    Willing(r[i], r[i + 1])
  }

  lemma {:induction false} WillingRunKeeps(r: seq<State>, i: nat)
    requires WillingRun(r) && i < |r|
    ensures OnTrack(r[i], TakenByA(r, i), TakenByB(r, i)) && r[i].b.mayLead == r[0].b.mayLead
    ensures !OutOfTemp(r[i])
  {
    if i == 0 {
      RunKeepsInv(r, 0);
    } else {
      WillingRunKeeps(r, i - 1);
      assert WillingAt(r, i - 1);
      WillingStepKeeps(r[i - 1], r[i], TakenByA(r, i - 1), TakenByB(r, i - 1));
    }
  }

  /** When every choice is to go on and the run cannot be continued, all jobs have been done, in order: the first
    * master has sent the files it was to send and got those it was to fetch, and if the other side may lead, then
    * after them the files of that side's jobs. */
  lemma AllJobsDone(r: seq<State>)
    requires WillingRun(r) && Final(r[|r| - 1])
    ensures var st, first, other := r[|r| - 1], Jobs(r[0].a.work), if r[0].b.mayLead then Jobs(r[0].b.work) else [];
      && st.a.sent == st.b.got == OfKind(first, SendFile) + OfKind(other, FetchFile)
      && st.a.got == st.b.sent == OfKind(first, FetchFile) + OfKind(other, SendFile)
  {
    var last := |r| - 1;
    forall i | 0 <= i < |r| ensures !OutOfTemp(r[i]) { WillingRunKeeps(r, i); }
    ConversationEnds(r);
    WillingRunKeeps(r, last);
    NoJobLost(r, last);
    var st := r[last];
    assert Jobs([]) == [];
    assert st.a.sent + [] == st.a.sent && st.a.got + [] == st.a.got;
    assert st.b.sent + [] == st.b.sent && st.b.got + [] == st.b.got;
    assert JobsOf(TakenByA(r, last)) + [] == JobsOf(TakenByA(r, last));
    assert JobsOf(TakenByB(r, last)) + [] == JobsOf(TakenByB(r, last));
  }

  /** In particular, when the other side does not lead: exactly the first master's jobs. */
  lemma FirstMastersJobsDone(r: seq<State>)
    requires WillingRun(r) && Final(r[|r| - 1]) && !r[0].b.mayLead
    ensures var st, jobs := r[|r| - 1], Jobs(r[0].a.work);
      st.a.sent == st.b.got == OfKind(jobs, SendFile) && st.a.got == st.b.sent == OfKind(jobs, FetchFile)
  {
    AllJobsDone(r);
  }
}
