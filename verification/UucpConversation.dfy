/** The conversation between two copies of cntrl() (cntrl.c), one started as master and one as slave, as a
  * two-process step system over a pair of loss-free first-in first-out links.
  *
  * Everything that depends on permissions, file systems and configuration is an arbitrary choice.
  */
module UucpConversation {

  datatype Kind = SendFile | FetchFile
  datatype Job = Job(kind: Kind, id: nat)

  // A work-list entry: a job, or a C. file in which no usable line is left.
  datatype Work = Usable(job: Job) | Spent

  datatype Letter = S | R | C | H
  datatype Arg = Yes | No(code: nat) | Request(job: Job) | Blank
  datatype Packet = Message(letter: Letter, arg: Arg) | Data(job: Job)

  datatype Role = Master | Slave

  /** Where cntrl() is: at the label top, waiting in rmesg for a letter, inside Wrdata or Rddata, or gone. */
  datatype Pc =
    | Top
    | Await(expected: Letter)
    | Writing
    | Reading
    | Returned
    | Failed
    | Aborted

  /** One process: its role, where it is, its work list, the job in wrkvec, whether switchRole() allows it to
    * take the lead, and the files whose data it has written to and read from the link. */
  datatype Side = Side(role: Role, pc: Pc, work: seq<Work>, job: Job, mayLead: bool, sent: seq<Job>, got: seq<Job>)

  const EM_NOTMP: nat := 4

  /** What a request or reply letter looks like for a job. */
  function LetterOf(k: Kind): Letter { if k.SendFile? then S else R }

  // gtwvec: skip spent entries, then take a job.
  function NextJob(work: seq<Work>): (rest: seq<Work>)
    ensures |rest| <= |work| && (rest == [] || rest[0].Usable?)
  {
    if work == [] then []
    else if work[0].Spent? then NextJob(work[1..])
    else work
  }

  /** The choices of one step: whether to go on with a request (or reject it, with which message number). */
  datatype Choice = Choice(accept: bool, code: nat)

  /** What a step produces: the new process state and what it puts on the link. */
  datatype Effect = Effect(side: Side, out: seq<Packet>)

  function Stay(me: Side, pc: Pc): Effect { Effect(me.(pc := pc), []) }

  function Say(me: Side, pc: Pc, letter: Letter, arg: Arg): Effect {
    Effect(me.(pc := pc), [Message(letter, arg)])
  }

  /** The code after the label process, for any message in any state. */
  function Process(me: Side, letter: Letter, arg: Arg, d: Choice): Effect {
    match letter
    case C => Stay(me, Top)
    case H =>
      if arg.Yes? then Say(me, Returned, H, Yes)
      else if arg.No? then
        if me.role.Master? then Stay(me.(role := Slave), Top) else Stay(me, Aborted)
      else if !me.mayLead || me.work == [] then Say(me, Await(H), H, Yes)
      else Say(me.(role := Master), Top, H, No(0))
    case S =>
      if arg.No? then
        if me.role.Slave? || arg.code == EM_NOTMP then Stay(me, Aborted) else Stay(me, Top)
      else if arg.Yes? then
        if me.role.Master? then Stay(me, Writing) else Stay(me, Aborted)
      else if me.role.Master? then Stay(me, Aborted)
      else Asked(me, S, arg, d, Reading)
    case R =>
      if arg.No? then
        if me.role.Slave? then Stay(me, Aborted) else Stay(me, Top)
      else if arg.Yes? then
        if me.role.Master? then Stay(me, Reading) else Stay(me, Aborted)
      else if me.role.Master? then Stay(me, Aborted)
      else Asked(me, R, arg, d, Writing)
  }

  // A slave's answer to a request; a request with too few words is refused like any other.
  function Asked(me: Side, letter: Letter, arg: Arg, d: Choice, next: Pc): Effect {
    if d.accept && arg.Request? then Say(me.(job := arg.job), next, letter, Yes)
    else Say(me, Top, letter, No(d.code))
  }

  /** rmesg: any other letter than the one expected, or raw data, fails the conversation. */
  function Receive(me: Side, p: Packet, d: Choice): Effect {
    if p.Data? then Stay(me, Failed)
    else if me.pc.Await? && p.letter != me.pc.expected then Stay(me, Failed)
    else Process(me, p.letter, p.arg, d)
  }

  /** Rddata and what follows it: the file is taken and its completion is reported. */
  function TakeData(me: Side, p: Packet, d: Choice): Effect {
    if p.Data? then Say(me.(got := me.got + [p.job]), Top, C, if d.accept then Yes else No(d.code))
    else Stay(me, Failed)
  }

  // Waiting for something from the link.
  predicate Listens(me: Side) {
    me.pc.Await? || me.pc.Reading? || (me.pc.Top? && me.role.Slave?)
  }

  /** One step of one process. A listening process consumes the first packet; the others run on. */
  predicate SideStep(me: Side, inbox: seq<Packet>, d: Choice, me': Side, inbox': seq<Packet>, out: seq<Packet>) {
    if Listens(me) then
      inbox != [] && inbox' == inbox[1..] &&
      Effect(me', out) == if me.pc.Reading? then TakeData(me, inbox[0], d) else Receive(me, inbox[0], d)
    else if me.pc.Writing? then
      inbox' == inbox && Effect(me', out) == Effect(me.(pc := Await(C), sent := me.sent + [me.job]), [Data(me.job)])
    else if me.pc.Top? then
      inbox' == inbox && Effect(me', out) == Lead(me, d)
    else false
  }

  /** A master at top: hang up when there is no work; drop a job that cannot be started; or ask for it. */
  function Lead(me: Side, d: Choice): Effect {
    var work := NextJob(me.work);
    if work == [] then Say(me.(work := []), Await(H), H, Blank)
    else
      var me1 := me.(work := work[1..], job := work[0].job);
      if !d.accept then Stay(me1, Top)
      else Say(me1, Await(LetterOf(me1.job.kind)), LetterOf(me1.job.kind), Request(me1.job))
  }

  datatype State = State(a: Side, b: Side, ab: seq<Packet>, ba: seq<Packet>)

  ghost predicate Step(st: State, st': State) {
    || (exists d, out :: SideStep(st.a, st.ba, d, st'.a, st'.ba, out) && st'.ab == st.ab + out && st'.b == st.b)
    || (exists d, out :: SideStep(st.b, st.ab, d, st'.b, st'.ab, out) && st'.ba == st.ba + out && st'.a == st.a)
  }

  ghost predicate Init(st: State) {
    st.a.role == Master && st.b.role == Slave && st.a.pc == Top && st.b.pc == Top &&
    st.ab == [] && st.ba == [] && st.a.sent == st.a.got == st.b.sent == st.b.got == []
  }

  // The one reply that makes a master give up: the slave could not create a temporary file.
  const NoTemp: Packet := Message(S, No(EM_NOTMP))

  predicate OutOfTemp(st: State) { NoTemp in st.ab || NoTemp in st.ba }

  // What a leading side may have put on the link after the other side's next packet.
  predicate Leading(m: Side, tail: seq<Packet>) {
    m.role == Master &&
    ((m.pc == Top && tail == []) ||
     (m.pc == Await(LetterOf(m.job.kind)) && tail == [Message(LetterOf(m.job.kind), Request(m.job))]) ||
     (m.pc == Await(H) && tail == [Message(H, Blank)] && m.work == []))
  }

  predicate IsDone(p: Packet) { p.Message? && p.letter == C }

  /** The pairs of positions and link contents that occur, seen with m as the side that leads. */
  predicate Phase(m: Side, s: Side, ms: seq<Packet>, sm: seq<Packet>) {
    // the slave waits for a request, possibly one completion behind
    || (s.role == Slave && s.pc == Top && sm == [] && Leading(m, ms))
    || (s.role == Slave && s.pc == Await(C) && sm == [] && ms != [] && IsDone(ms[0]) && Leading(m, ms[1..]))
    // the former master has not yet read that it is now the slave
    || (s.role == Master && s.pc == Await(H) && s.work == [] && sm == [] && ms != [] && ms[0].Message? &&
        ms[0].letter == H && ms[0].arg.No? && Leading(m, ms[1..]))
    || Busy(m, s, ms, sm)
    || HangingUp(m, s, ms, sm)
  }

  // A request has been answered and is being carried out.
  predicate Busy(m: Side, s: Side, ms: seq<Packet>, sm: seq<Packet>) {
    m.role == Master && s.role == Slave &&
    (|| (m.pc == Await(LetterOf(m.job.kind)) && s.pc == Top && ms == [] && |sm| == 1 && sm[0].Message? &&
         sm[0].letter == LetterOf(m.job.kind) && sm[0].arg.No? && sm[0] != NoTemp)
     || (m.job.kind == SendFile && s.job == m.job && Pushing(m, s, ms, sm))
     || (m.job.kind == FetchFile && s.job == m.job && Pulling(m, s, ms, sm)))
  }

  predicate Pushing(m: Side, s: Side, ms: seq<Packet>, sm: seq<Packet>) {
    || (m.pc == Await(S) && s.pc == Reading && ms == [] && sm == [Message(S, Yes)])
    || (m.pc == Writing && s.pc == Reading && ms == [] && sm == [])
    || (m.pc == Await(C) && s.pc == Reading && ms == [Data(m.job)] && sm == [])
    || (m.pc == Await(C) && s.pc == Top && ms == [] && |sm| == 1 && IsDone(sm[0]))
  }

  predicate Pulling(m: Side, s: Side, ms: seq<Packet>, sm: seq<Packet>) {
    || (m.pc == Await(R) && s.pc == Writing && ms == [] && sm == [Message(R, Yes)])
    || (m.pc == Await(R) && s.pc == Await(C) && ms == [] && sm == [Message(R, Yes), Data(m.job)])
    || (m.pc == Reading && s.pc == Writing && ms == [] && sm == [])
    || (m.pc == Reading && s.pc == Await(C) && ms == [] && sm == [Data(m.job)])
  }

  predicate HangingUp(m: Side, s: Side, ms: seq<Packet>, sm: seq<Packet>) {
    m.role == Master && s.role == Slave && m.work == [] && (s.work == [] || !s.mayLead) &&
    (|| (m.pc == Await(H) && s.pc == Await(H) && ms == [] && sm == [Message(H, Yes)])
     || (m.pc == Returned && s.pc == Await(H) && ms == [Message(H, Yes)] && sm == [])
     || (m.pc == Returned && s.pc == Returned && ms == [] && sm == [Message(H, Yes)]))
  }

  // The files on a link that have been written and not yet read.
  function InFlight(link: seq<Packet>): seq<Job> {
    if link == [] then []
    else if link[0].Data? then [link[0].job] + InFlight(link[1..])
    else InFlight(link[1..])
  }

  /** Nothing written to a link is lost, duplicated or reordered. */
  predicate Accounted(writer: Side, link: seq<Packet>, reader: Side) {
    writer.sent == reader.got + InFlight(link)
  }

  ghost predicate Inv(st: State) {
    Related(st.a, st.b, st.ab, st.ba)
  }

  lemma {:induction false} InFlightAppend(l: seq<Packet>, p: Packet)
    ensures InFlight(l + [p]) == InFlight(l) + if p.Data? then [p.job] else []
  {
    if l == [] {
      assert (l + [p])[1..] == [];
    } else {
      assert (l + [p])[1..] == l[1..] + [p];
      InFlightAppend(l[1..], p);
    }
  }

  lemma AppendOut(l: seq<Packet>, out: seq<Packet>)
    requires |out| <= 1
    ensures InFlight(l + out) == InFlight(l) + InFlight(out)
  {
    if out == [] {
      assert l + out == l;
    } else {
      InFlightAppend(l, out[0]);
      assert out == [out[0]];
    }
  }

  /** A step of either process keeps the accounts of both links. */
  lemma StepAccounts(me: Side, you: Side, inbox: seq<Packet>, link: seq<Packet>, d: Choice, me': Side,
                     inbox': seq<Packet>, out: seq<Packet>)
    requires SideStep(me, inbox, d, me', inbox', out) && me'.pc != Failed
    requires Accounted(you, inbox, me) && Accounted(me, link, you)
    ensures Accounted(you, inbox', me') && Accounted(me', link + out, you)
  {
    if Listens(me) {
      if me.pc.Reading? {
        assert inbox[0].Data? && me'.got == me.got + [inbox[0].job] && me'.sent == me.sent;
        AppendOut(link, out);
        assert InFlight(out) == [] by { assert out[1..] == []; }
      } else {
        ReceiveMovesNoData(me, inbox[0], d);
        assert me'.got == me.got && me'.sent == me.sent;
        AppendOut(link, out);
      }
    } else if me.pc.Writing? {
      AppendOut(link, out);
      assert InFlight(out) == [me.job] by { assert out[1..] == []; }
    } else {
      LeadMovesNoData(me, d);
      AppendOut(link, out);
    }
  }

  lemma ReceiveMovesNoData(me: Side, p: Packet, d: Choice)
    ensures var e := Receive(me, p, d);
            e.side.got == me.got && e.side.sent == me.sent && |e.out| <= 1 && InFlight(e.out) == [] &&
            (p.Data? ==> e.side.pc == Failed)
  {
    var e := Receive(me, p, d);
    if e.out != [] { assert e.out[1..] == []; }
  }

  lemma LeadMovesNoData(me: Side, d: Choice)
    ensures var e := Lead(me, d);
            e.side.got == me.got && e.side.sent == me.sent && |e.out| <= 1 && InFlight(e.out) == []
  {
    var e := Lead(me, d);
    if e.out != [] { assert e.out[1..] == []; }
  }

  lemma LeaderStep(m: Side, s: Side, ms: seq<Packet>, sm: seq<Packet>, d: Choice, m': Side, sm': seq<Packet>,
                   out: seq<Packet>)
    requires Phase(m, s, ms, sm) && SideStep(m, sm, d, m', sm', out)
    ensures Phase(m', s, ms + out, sm') || Phase(s, m', sm', ms + out)
  {
    if Busy(m, s, ms, sm) { BusyLeaderStep(m, s, ms, sm, d, m', sm', out); }
  }

  lemma BusyLeaderStep(m: Side, s: Side, ms: seq<Packet>, sm: seq<Packet>, d: Choice, m': Side, sm': seq<Packet>,
                       out: seq<Packet>)
    requires Busy(m, s, ms, sm) && SideStep(m, sm, d, m', sm', out)
    ensures Phase(m', s, ms + out, sm')
  {
  }

  lemma FollowerStep(m: Side, s: Side, ms: seq<Packet>, sm: seq<Packet>, d: Choice, s': Side, ms': seq<Packet>,
                     out: seq<Packet>)
    requires Phase(m, s, ms, sm) && SideStep(s, ms, d, s', ms', out) && NoTemp !in out
    ensures Phase(m, s', ms', sm + out) || Phase(s', m, sm + out, ms')
  {
  }

  ghost predicate Related(me: Side, you: Side, link: seq<Packet>, inbox: seq<Packet>) {
    (Phase(me, you, link, inbox) || Phase(you, me, inbox, link)) &&
    Accounted(me, link, you) && Accounted(you, inbox, me)
  }

  lemma PhaseSound(m: Side, s: Side, ms: seq<Packet>, sm: seq<Packet>)
    requires Phase(m, s, ms, sm)
    ensures Sound(m) && Sound(s)
  {
  }

  lemma SideKeeps(me: Side, you: Side, inbox: seq<Packet>, link: seq<Packet>, d: Choice, me': Side,
                  inbox': seq<Packet>, out: seq<Packet>)
    requires Related(me, you, link, inbox) && SideStep(me, inbox, d, me', inbox', out) && NoTemp !in out
    ensures Related(me', you, link + out, inbox')
  {
    if Phase(me, you, link, inbox) {
      LeaderStep(me, you, link, inbox, d, me', inbox', out);
    } else {
      FollowerStep(you, me, inbox, link, d, me', inbox', out);
    }
    if Phase(me', you, link + out, inbox') {
      PhaseSound(me', you, link + out, inbox');
    } else {
      PhaseSound(you, me', inbox', link + out);
    }
    StepAccounts(me, you, inbox, link, d, me', inbox', out);
  }

  /** Every step keeps the invariant, as long as temporary files can be created. */
  lemma StepKeepsInv(st: State, st': State)
    requires Inv(st) && Step(st, st') && !OutOfTemp(st')
    ensures Inv(st')
  {
    if d, out :| SideStep(st.a, st.ba, d, st'.a, st'.ba, out) && st'.ab == st.ab + out && st'.b == st.b {
      SideKeeps(st.a, st.b, st.ba, st.ab, d, st'.a, st'.ba, out);
    } else {
      var d, out :| SideStep(st.b, st.ab, d, st'.b, st'.ab, out) && st'.ba == st.ba + out && st'.a == st.a;
      SideKeeps(st.b, st.a, st.ab, st.ba, d, st'.b, st'.ab, out);
    }
  }

  predicate Sound(me: Side) { me.pc != Failed && me.pc != Aborted }

  // About to send a request, or to offer to hang up.
  predicate CanAsk(me: Side) { me.role.Master? && me.pc.Top? }

  /** No expectation of rmesg fails, no role assertion fails, and at most one side can issue a request. */
  predicate Safe(st: State) { Sound(st.a) && Sound(st.b) && !(CanAsk(st.a) && CanAsk(st.b)) }

  predicate Over(st: State) { st.a.pc.Returned? && st.b.pc.Returned? }

  /** The conversation is over with nothing left undone: every file written has been read, in order, and a
    * side that may lead has no work left. */
  predicate Settled(st: State) {
    Over(st) && st.a.sent == st.b.got && st.b.sent == st.a.got &&
    (st.a.mayLead ==> st.a.work == []) && (st.b.mayLead ==> st.b.work == [])
  }

  lemma InvSafe(st: State)
    requires Inv(st)
    ensures Safe(st)
    ensures Over(st) ==> Settled(st)
  {
    assert InFlight([Message(H, Yes)]) == InFlight([]) == [];
  }

  // A process that has something to do.
  ghost predicate Ready(me: Side, inbox: seq<Packet>) {
    if Listens(me) then inbox != [] else me.pc.Writing? || me.pc.Top?
  }

  lemma ReadyCanStep(me: Side, inbox: seq<Packet>) returns (d: Choice, me': Side, inbox': seq<Packet>, out: seq<Packet>)
    requires Ready(me, inbox)
    ensures SideStep(me, inbox, d, me', inbox', out)
  {
    d := Choice(true, 0);
    inbox' := if Listens(me) then inbox[1..] else inbox;
    var e := if Listens(me) then (if me.pc.Reading? then TakeData(me, inbox[0], d) else Receive(me, inbox[0], d))
             else if me.pc.Writing? then Effect(me.(pc := Await(C), sent := me.sent + [me.job]), [Data(me.job)])
             else Lead(me, d);
    me', out := e.side, e.out;
  }

  /** The two sides never wait for each other: until both have returned, one of them can go on. */
  lemma NeverStuck(st: State) returns (st': State)
    requires Inv(st) && !Over(st)
    ensures Step(st, st')
  {
    if Ready(st.a, st.ba) {
      var d, a, ba, out := ReadyCanStep(st.a, st.ba);
      st' := State(a, st.b, st.ab + out, ba);
    } else {
      assert Ready(st.b, st.ab);
      var d, b, ab, out := ReadyCanStep(st.b, st.ab);
      st' := State(st.a, b, ab, st.ba + out);
    }
  }

  // A bound on what a process and a packet can still cause.
  function PcRank(me: Side): nat {
    match me.pc
    case Top => if me.role.Slave? then 1 else if me.work == [] then 8 else 4
    case Await(l) => if l.H? then 1 else if l.C? then 8 else 12
    case Writing => 10
    case Reading => 9
    case Returned => 0
    case Failed => 0
    case Aborted => 0
  }

  function PacketRank(p: Packet): nat {
    if p.Data? then 1
    else match p.arg
      case Request(_) => 11
      case Blank => 5
      case Yes => 1
      case No(_) => 1
  }

  function LinkRank(l: seq<Packet>): nat {
    if l == [] then 0 else PacketRank(l[0]) + LinkRank(l[1..])
  }

  lemma {:induction false} LinkRankAppend(l: seq<Packet>, p: Packet)
    ensures LinkRank(l + [p]) == LinkRank(l) + PacketRank(p)
  {
    if l == [] {
      assert (l + [p])[1..] == [];
    } else {
      assert (l + [p])[1..] == l[1..] + [p];
      LinkRankAppend(l[1..], p);
    }
  }

  function SideRank(me: Side): nat { 40 * |me.work| + PcRank(me) }

  /** How many steps a conversation can still take. */
  function Rank(st: State): nat { SideRank(st.a) + SideRank(st.b) + LinkRank(st.ab) + LinkRank(st.ba) }

  // What one step does is cheaper than what it consumes.
  lemma EffectDecreases(me: Side, p: Packet, d: Choice)
    requires Listens(me)
    ensures var e := if me.pc.Reading? then TakeData(me, p, d) else Receive(me, p, d);
            |e.out| <= 1 &&
            SideRank(e.side) + (if e.out == [] then 0 else PacketRank(e.out[0])) < SideRank(me) + PacketRank(p)
  {
  }

  lemma LeadDecreases(me: Side, d: Choice)
    requires CanAsk(me)
    ensures var e := Lead(me, d);
            |e.out| <= 1 && SideRank(e.side) + (if e.out == [] then 0 else PacketRank(e.out[0])) < SideRank(me)
  {
  }

  lemma SideStepDecreases(me: Side, inbox: seq<Packet>, d: Choice, me': Side, inbox': seq<Packet>, out: seq<Packet>)
    requires SideStep(me, inbox, d, me', inbox', out)
    ensures |out| <= 1
    ensures SideRank(me') + LinkRank(inbox') + LinkRank(out) < SideRank(me) + LinkRank(inbox)
  {
    if Listens(me) {
      EffectDecreases(me, inbox[0], d);
    } else if me.pc.Top? {
      LeadDecreases(me, d);
    }
    if out != [] { assert out[1..] == []; }
    assert LinkRank(out) == if out == [] then 0 else PacketRank(out[0]);
  }

  lemma StepDecreases(st: State, st': State)
    requires Step(st, st')
    ensures Rank(st') < Rank(st)
  {
    if d, out :| SideStep(st.a, st.ba, d, st'.a, st'.ba, out) && st'.ab == st.ab + out && st'.b == st.b {
      SideStepDecreases(st.a, st.ba, d, st'.a, st'.ba, out);
      LinkRankOut(st.ab, out);
    } else {
      var d, out :| SideStep(st.b, st.ab, d, st'.b, st'.ab, out) && st'.ba == st.ba + out && st'.a == st.a;
      SideStepDecreases(st.b, st.ab, d, st'.b, st'.ab, out);
      LinkRankOut(st.ba, out);
    }
  }

  lemma LinkRankOut(l: seq<Packet>, out: seq<Packet>)
    requires |out| <= 1
    ensures LinkRank(l + out) == LinkRank(l) + LinkRank(out)
  {
    if out == [] {
      assert l + out == l;
    } else {
      assert out == [out[0]] && out[1..] == [];
      LinkRankAppend(l, out[0]);
    }
  }

  // Neither process can go on.
  ghost predicate Final(st: State) { forall st' :: !Step(st, st') }

  /** A run: a start and any number of steps by either process in any order. */
  ghost predicate Run(r: seq<State>) {
    r != [] && Init(r[0]) && Steps(r)
  }

  ghost predicate Steps(r: seq<State>) { forall i :: 0 <= i < |r| - 1 ==> StepAt(r, i) }

  ghost predicate StepAt(r: seq<State>, i: nat)
    requires i + 1 < |r|
  {
    Step(r[i], r[i + 1])
  }

  lemma RunStep(r: seq<State>, i: nat)
    requires Steps(r) && i + 1 < |r|
    ensures Step(r[i], r[i + 1])
  {
    assert StepAt(r, i);
  }

  // No slave ever ran out of temporary files.
  predicate TempAvailable(r: seq<State>) { forall i :: 0 <= i < |r| ==> !OutOfTemp(r[i]) }

  lemma {:induction false} RunKeepsInv(r: seq<State>, i: nat)
    requires Run(r) && i < |r| && forall j :: 0 <= j <= i ==> !OutOfTemp(r[j])
    ensures Inv(r[i]) && Rank(r[i]) + i <= Rank(r[0])
  {
    if i == 0 {
      assert InFlight([]) == [];
    } else {
      RunKeepsInv(r, i - 1);
      RunStep(r, i - 1);
      StepKeepsInv(r[i - 1], r[i]);
      StepDecreases(r[i - 1], r[i]);
    }
  }

  /** A side that started as master has worked off its list before it offers to hang up, and has none later. */
  predicate WorkedOff(me: Side) {
    me.work == [] || (me.role == Master && me.pc != Await(H) && me.pc != Returned)
  }

  lemma SideWorksOff(me: Side, inbox: seq<Packet>, d: Choice, me': Side, inbox': seq<Packet>, out: seq<Packet>)
    requires SideStep(me, inbox, d, me', inbox', out) && WorkedOff(me)
    ensures WorkedOff(me')
  {
  }

  lemma {:induction false} FirstMasterWorksOff(r: seq<State>, i: nat)
    requires Run(r) && i < |r|
    ensures WorkedOff(r[i].a)
  {
    if i > 0 {
      FirstMasterWorksOff(r, i - 1);
      RunStep(r, i - 1);
      var st, st' := r[i - 1], r[i];
      if d, out :| SideStep(st.a, st.ba, d, st'.a, st'.ba, out) && st'.ab == st.ab + out && st'.b == st.b {
        SideWorksOff(st.a, st.ba, d, st'.a, st'.ba, out);
      }
    }
  }

  /** The conversation theorem. In every run in which temporary files can be created, every state is safe, the
    * run is no longer than the bound computed from the two work lists, and if it cannot be continued both
    * sides have returned with nothing left undone: the first master has no work left, nor has the other
    * side if it may lead. */
  lemma ConversationEnds(r: seq<State>)
    requires Run(r) && TempAvailable(r)
    ensures forall i :: 0 <= i < |r| ==> Safe(r[i])
    ensures |r| <= 40 * (|r[0].a.work| + |r[0].b.work|) + 10
    ensures Final(r[|r| - 1]) ==> Settled(r[|r| - 1]) && r[|r| - 1].a.work == []
  {
    FirstMasterWorksOff(r, |r| - 1);
    forall i | 0 <= i < |r| ensures Safe(r[i]) {
      RunKeepsInv(r, i);
      InvSafe(r[i]);
    }
    RunKeepsInv(r, |r| - 1);
    InvSafe(r[|r| - 1]);
    assert LinkRank([]) == 0;
    if !Over(r[|r| - 1]) {
      var st' := NeverStuck(r[|r| - 1]);
    }
  }

  predicate HasAborted(st: State) { st.a.pc.Aborted? || st.b.pc.Aborted? }

  // A slave that has just refused a file for want of a temporary file: only the master can go on.
  lemma RefusalIsFinal(m: Side, s: Side, ms: seq<Packet>, sm: seq<Packet>, d: Choice, s': Side, ms': seq<Packet>,
                       out: seq<Packet>)
    requires Phase(m, s, ms, sm) && SideStep(s, ms, d, s', ms', out) && NoTemp in out
    ensures sm == [] && out == [NoTemp] && m.pc == Await(S) && s'.role == Slave && s'.pc == Top && ms' == []
  {
  }

  lemma LeaderNeverRefuses(m: Side, s: Side, ms: seq<Packet>, sm: seq<Packet>, d: Choice, m': Side,
                           sm': seq<Packet>, out: seq<Packet>)
    requires Phase(m, s, ms, sm) && SideStep(m, sm, d, m', sm', out)
    ensures NoTemp !in out
  {
  }

  lemma NoTempOnLink(m: Side, s: Side, ms: seq<Packet>, sm: seq<Packet>)
    requires Phase(m, s, ms, sm)
    ensures NoTemp !in ms && NoTemp !in sm
  {
  }

  lemma RefusalThenAbort(me: Side, you: Side, inbox: seq<Packet>, link: seq<Packet>, d: Choice, me': Side,
                         inbox': seq<Packet>, out: seq<Packet>, st': State)
    requires Related(me, you, link, inbox) && SideStep(me, inbox, d, me', inbox', out) && NoTemp in out
    requires Step(State(me', you, link + out, inbox'), st') || Step(State(you, me', inbox', link + out), st')
    ensures HasAborted(st')
  {
    if Phase(me, you, link, inbox) {
      LeaderNeverRefuses(me, you, link, inbox, d, me', inbox', out);
    } else {
      RefusalIsFinal(you, me, inbox, link, d, me', inbox', out);
      assert link + out == [NoTemp];
    }
  }

  /** The other direction: a reply for want of a temporary file aborts the master at the very next step. */
  lemma OutOfTempAborts(st: State, st1: State, st2: State)
    requires Inv(st) && Step(st, st1) && OutOfTemp(st1) && Step(st1, st2)
    ensures HasAborted(st2)
  {
    if Phase(st.a, st.b, st.ab, st.ba) { NoTempOnLink(st.a, st.b, st.ab, st.ba); }
    else { NoTempOnLink(st.b, st.a, st.ba, st.ab); }
    if d, out :| SideStep(st.a, st.ba, d, st1.a, st1.ba, out) && st1.ab == st.ab + out && st1.b == st.b {
      assert forall p :: p in st1.ba ==> p in st.ba;
      RefusalThenAbort(st.a, st.b, st.ba, st.ab, d, st1.a, st1.ba, out, st2);
    } else {
      var d, out :| SideStep(st.b, st.ab, d, st1.b, st1.ab, out) && st1.ba == st.ba + out && st1.a == st.a;
      assert forall p :: p in st1.ab ==> p in st.ab;
      RefusalThenAbort(st.b, st.a, st.ab, st.ba, d, st1.b, st1.ab, out, st2);
    }
  }

  /** Exactly when a conversation that cannot be continued has settled: temporary files were available. */
  lemma SettlesIffTempAvailable(r: seq<State>)
    requires Run(r) && Final(r[|r| - 1])
    ensures Settled(r[|r| - 1]) <==> TempAvailable(r)
  {
    if TempAvailable(r) {
      ConversationEnds(r);
    } else {
      var j: nat :| j < |r| && OutOfTemp(r[j]);
      var k := FirstRefusal(r, j);
      RefusedRunAborts(r, k, |r| - 1);
    }
  }

  /** Such a reply can be met: whenever the first job of the master is to send a file, the conversation may
    * end at once in its refusal, with the rest of the work undone. */
  lemma RefusedRun(st: State, job: Job, rest: seq<Work>) returns (r: seq<State>)
    requires Init(st) && st.a.work == [Usable(job)] + rest && job.kind.SendFile?
    ensures Run(r) && r[0] == st && |r| == 4 && Final(r[3]) && !TempAvailable(r)
    ensures r[3].a.pc.Aborted? && r[3].a.work == rest && r[3].b.got == []
  {
    var a1 := st.a.(work := rest, job := job, pc := Await(S));
    var st1 := State(a1, st.b, [Message(S, Request(job))], []);
    var st2 := State(a1, st.b, [], [NoTemp]);
    var st3 := State(a1.(pc := Aborted), st.b, [], []);
    r := [st, st1, st2, st3];
    FirstRequest(st, st1, job, rest);
    assert SideStep(st1.b, st1.ab, Choice(false, EM_NOTMP), st2.b, st2.ab, [NoTemp]);
    assert SideStep(st2.a, st2.ba, Choice(true, 0), st3.a, st3.ba, []);
    assert StepAt(r, 0) && StepAt(r, 1) && StepAt(r, 2);
    assert OutOfTemp(r[2]);
  }

  lemma FirstRequest(st: State, st1: State, job: Job, rest: seq<Work>)
    requires Init(st) && st.a.work == [Usable(job)] + rest && job.kind.SendFile?
    requires st1 == State(st.a.(work := rest, job := job, pc := Await(S)), st.b, [Message(S, Request(job))], [])
    ensures Step(st, st1)
  {
    assert st.a.work[1..] == rest;
    assert SideStep(st.a, st.ba, Choice(true, 0), st1.a, st1.ba, [Message(S, Request(job))]);
  }

  lemma RefusedRunAborts(r: seq<State>, k: nat, last: nat)
    requires Run(r) && last == |r| - 1 && Final(r[last]) && 0 < k <= last && OutOfTemp(r[k])
    requires forall j :: 0 <= j < k ==> !OutOfTemp(r[j])
    ensures HasAborted(r[last])
  {
    RunKeepsInv(r, k - 1);
    RunStep(r, k - 1);
    RefusalOutcome(r[k - 1], r[k]);
    assert k < last;
    RunStep(r, k);
    AbortedStays(r, k + 1, last);
  }

  lemma RefusalOutcome(st: State, st1: State)
    requires Inv(st) && Step(st, st1) && OutOfTemp(st1)
    ensures !Final(st1) && forall st2 :: Step(st1, st2) ==> HasAborted(st2)
  {
    var st2 := RefusalCanStep(st, st1);
    forall st2 | Step(st1, st2) ensures HasAborted(st2) {
      OutOfTempAborts(st, st1, st2);
    }
  }

  lemma {:induction false} FirstRefusal(r: seq<State>, i: nat) returns (k: nat)
    requires Run(r) && i < |r| && exists j :: 0 <= j <= i && OutOfTemp(r[j])
    ensures 0 < k <= i && OutOfTemp(r[k]) && forall j :: 0 <= j < k ==> !OutOfTemp(r[j])
    decreases i
  {
    if j: nat :| j < i && OutOfTemp(r[j]) {
      k := FirstRefusal(r, j);
    } else {
      k := i;
    }
  }

  // The refusing state is not the last one: the master reads the reply.
  lemma RefusalCanStep(st: State, st1: State) returns (st2: State)
    requires Inv(st) && Step(st, st1) && OutOfTemp(st1)
    ensures Step(st1, st2)
  {
    if Phase(st.a, st.b, st.ab, st.ba) { NoTempOnLink(st.a, st.b, st.ab, st.ba); }
    else { NoTempOnLink(st.b, st.a, st.ba, st.ab); }
    if d, out :| SideStep(st.a, st.ba, d, st1.a, st1.ba, out) && st1.ab == st.ab + out && st1.b == st.b {
      assert forall p :: p in st1.ba ==> p in st.ba;
      Refused(st.a, st.b, st.ba, st.ab, d, st1.a, st1.ba, out);
      var e, b, ab, o := ReadyCanStep(st1.b, st1.ab);
      st2 := State(st1.a, b, ab, st1.ba + o);
    } else {
      var d, out :| SideStep(st.b, st.ab, d, st1.b, st1.ab, out) && st1.ba == st.ba + out && st1.a == st.a;
      assert forall p :: p in st1.ab ==> p in st.ab;
      Refused(st.b, st.a, st.ab, st.ba, d, st1.b, st1.ab, out);
      var e, a, ba, o := ReadyCanStep(st1.a, st1.ba);
      st2 := State(a, st1.b, st1.ab + o, ba);
    }
  }

  lemma Refused(me: Side, you: Side, inbox: seq<Packet>, link: seq<Packet>, d: Choice, me': Side,
                inbox': seq<Packet>, out: seq<Packet>)
    requires Related(me, you, link, inbox) && SideStep(me, inbox, d, me', inbox', out) && NoTemp in out
    ensures Ready(you, link + out)
  {
    if Phase(me, you, link, inbox) {
      LeaderNeverRefuses(me, you, link, inbox, d, me', inbox', out);
    } else {
      RefusalIsFinal(you, me, inbox, link, d, me', inbox', out);
    }
  }

  // A process that has aborted takes no further step.
  lemma {:induction false} AbortedStays(r: seq<State>, i: nat, j: nat)
    requires Steps(r) && i <= j < |r| && HasAborted(r[i])
    ensures HasAborted(r[j])
    decreases j
  {
    if i < j {
      AbortedStays(r, i, j - 1);
      RunStep(r, j - 1);
    }
  }
}
