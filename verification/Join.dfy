/**
 The join in Regression: share messages, sort completions and the randomness patron arrive in any
 order and drive one shared counter up to the launch of the later stages.
 */
module Join {

  datatype State =
    | AwaitingRandomnessAndSISOSort
    | AwaitingRandomnessOnly
    | AwaitingSISOSort
    | AwaitingZipAdjacent
    | AwaitingZipReduce
    | AwaitingBatchedModConvUp

  datatype Launch = Nothing | SISOSorts | ZipAdjacents | ZipReduces | BatchedModConvUp

  /** The fields the handlers steer by. The counter is an integer here, so that a decrement below zero shows. */
  datatype Control = Control(state: State, awaiting: int, randomnessDone: bool)

  /** What completed: the randomness patron, a SISO sort, or a child of a later stage. */
  datatype Child = Patron | Sort | ZipAdjacent | ZipReduce

  /** handleReceive, after it stored the shares. */
  function OnReceive(c: Control, n: nat): (Control, Launch) {
    var left := c.awaiting - 1;
    if left == 0 then (c.(awaiting := n, state := AwaitingSISOSort), SISOSorts)
    else (c.(awaiting := left), Nothing)
  }

  /** handleComplete, up to the launch of the modulus conversion. */
  function OnComplete(c: Control, child: Child, n: nat): (Control, Launch) {
    if !c.randomnessDone then
      if !child.Patron? then
        var left := c.awaiting - 1;
        (c.(awaiting := left, state := if left == 0 then AwaitingRandomnessOnly else c.state), Nothing)
      else if c.state == AwaitingRandomnessOnly then
        OnStage(Control(AwaitingSISOSort, 1, true), n)
      else
        (c.(state := AwaitingSISOSort, randomnessDone := true), Nothing)
    else
      OnStage(c, n)
  }

  /** The switch on the state. */
  function OnStage(c: Control, n: nat): (Control, Launch) {
    var left := c.awaiting - 1;
    match c.state
    case AwaitingSISOSort =>
      if left == 0 then (c.(awaiting := n, state := AwaitingZipAdjacent), ZipAdjacents)
      else (c.(awaiting := left), Nothing)
    case AwaitingZipAdjacent =>
      if left == 0 then (c.(awaiting := n, state := AwaitingZipReduce), ZipReduces)
      else (c.(awaiting := left), Nothing)
    case AwaitingZipReduce =>
      if left == 0 then (c.(awaiting := left, state := AwaitingBatchedModConvUp), BatchedModConvUp)
      else (c.(awaiting := left), Nothing)
    case _ =>
      (c, Nothing)
  }

  /** One party together with what is still under way for it. */
  datatype World = World(
    control: Control,
    sharesLeft: nat,
    patronOut: bool,
    sortsOut: nat,
    zipsOut: nat,
    reducesOut: nat,
    sortLaunches: nat,
    zipLaunches: nat,
    reduceLaunches: nat,
    conversions: nat)

  datatype Event = ShareArrives | PatronCompletes | SortCompletes | ZipAdjacentCompletes | ZipReduceCompletes

  /** After init, with n cross parties. */
  function Start(n: nat): World {
    World(Control(AwaitingRandomnessAndSISOSort, n, false), n, true, 0, 0, 0, 0, 0, 0, 0)
  }

  predicate Enabled(w: World, e: Event) {
    match e
    case ShareArrives => w.sharesLeft > 0
    case PatronCompletes => w.patronOut
    case SortCompletes => w.sortsOut > 0
    case ZipAdjacentCompletes => w.zipsOut > 0
    case ZipReduceCompletes => w.reducesOut > 0
  }

  /** What a launch puts under way: one child for every cross party. */
  function Perform(w: World, c: Control, launch: Launch, n: nat): World {
    var v := w.(control := c);
    match launch
    case Nothing => v
    case SISOSorts => v.(sortsOut := v.sortsOut + n, sortLaunches := v.sortLaunches + 1)
    case ZipAdjacents => v.(zipsOut := v.zipsOut + n, zipLaunches := v.zipLaunches + 1)
    case ZipReduces => v.(reducesOut := v.reducesOut + n, reduceLaunches := v.reduceLaunches + 1)
    case BatchedModConvUp => v.(conversions := v.conversions + 1)
  }

  function Step(w: World, e: Event, n: nat): World
    requires Enabled(w, e)
  {
    match e
    case ShareArrives =>
      var (c, launch) := OnReceive(w.control, n);
      Perform(w.(sharesLeft := w.sharesLeft - 1), c, launch, n)
    case PatronCompletes =>
      var (c, launch) := OnComplete(w.control, Patron, n);
      Perform(w.(patronOut := false), c, launch, n)
    case SortCompletes =>
      var (c, launch) := OnComplete(w.control, Sort, n);
      Perform(w.(sortsOut := w.sortsOut - 1), c, launch, n)
    case ZipAdjacentCompletes =>
      var (c, launch) := OnComplete(w.control, ZipAdjacent, n);
      Perform(w.(zipsOut := w.zipsOut - 1), c, launch, n)
    case ZipReduceCompletes =>
      var (c, launch) := OnComplete(w.control, ZipReduce, n);
      Perform(w.(reducesOut := w.reducesOut - 1), c, launch, n)
  }

  /** The worlds the event sequence passes through from w; every event must be enabled in its turn. */
  ghost predicate IsRun(w: World, events: seq<Event>, last: World, n: nat)
    decreases |events|
  {
    if |events| == 0 then last == w
    else Enabled(w, events[0]) && IsRun(Step(w, events[0], n), events[1..], last, n)
  }

  /** All sorts have been launched and have completed. */
  predicate SortsDone(w: World) {
    w.sharesLeft == 0 && w.sortsOut == 0
  }

  /** The counter counts exactly what the phase waits for, and each stage is launched when its input is there. */
  ghost predicate Inv(w: World, n: nat) {
    var c := w.control;
    && w.sharesLeft <= n && w.sortsOut <= n && w.zipsOut <= n && w.reducesOut <= n
    && (c.randomnessDone <==> !w.patronOut)
    && w.sortLaunches == (if w.sharesLeft == 0 then 1 else 0)
    && w.zipLaunches == (if SortsDone(w) && c.randomnessDone then 1 else 0)
    && w.reduceLaunches == (if w.zipLaunches == 1 && w.zipsOut == 0 then 1 else 0)
    && w.conversions == (if w.reduceLaunches == 1 && w.reducesOut == 0 then 1 else 0)
    && (w.sharesLeft > 0 ==> w.sortsOut == 0)
    && (w.zipLaunches == 0 ==> w.zipsOut == 0)
    && (w.reduceLaunches == 0 ==> w.reducesOut == 0)
    && (if w.sharesLeft > 0 then
          c.awaiting == w.sharesLeft && c.state in {AwaitingRandomnessAndSISOSort, AwaitingSISOSort}
        else if w.sortsOut > 0 then
          c.awaiting == w.sortsOut && c.state == AwaitingSISOSort
        else if w.patronOut then
          c.awaiting == 0 && c.state == AwaitingRandomnessOnly
        else if w.zipsOut > 0 then
          c.awaiting == w.zipsOut && c.state == AwaitingZipAdjacent
        else if w.reducesOut > 0 then
          c.awaiting == w.reducesOut && c.state == AwaitingZipReduce
        else
          c.awaiting == 0 && c.state == AwaitingBatchedModConvUp)
  }

  lemma StartInv(n: nat)
    requires n >= 1
    ensures Inv(Start(n), n)
  {
  }

  lemma StepInv(w: World, e: Event, n: nat)
    requires n >= 1 && Inv(w, n) && Enabled(w, e)
    ensures Inv(Step(w, e, n), n)
  {
  }

  /** Events left until the conversion is launched. */
  function Remaining(w: World, n: nat): int {
    w.sharesLeft + (if w.sharesLeft > 0 then n else w.sortsOut) + (if w.patronOut then 1 else 0)
    + (if w.zipLaunches == 0 then n else w.zipsOut) + (if w.reduceLaunches == 0 then n else w.reducesOut)
  }

  lemma StepRemaining(w: World, e: Event, n: nat)
    requires n >= 1 && Inv(w, n) && Enabled(w, e)
    ensures Remaining(Step(w, e, n), n) == Remaining(w, n) - 1
  {
    StepInv(w, e, n);
  }

  /** Until everything has happened, something can. */
  lemma Progress(w: World, n: nat) returns (e: Event)
    requires n >= 1 && Inv(w, n) && Remaining(w, n) > 0
    ensures Enabled(w, e)
  {
    e := if w.sharesLeft > 0 then ShareArrives
         else if w.sortsOut > 0 then SortCompletes
         else if w.patronOut then PatronCompletes
         else if w.zipsOut > 0 then ZipAdjacentCompletes
         else ZipReduceCompletes;
  }

  lemma {:induction false} RunInv(w: World, events: seq<Event>, last: World, n: nat)
    requires n >= 1 && Inv(w, n) && IsRun(w, events, last, n)
    ensures Inv(last, n) && Remaining(last, n) == Remaining(w, n) - |events|
    decreases |events|
  {
    if |events| > 0 {
      StepInv(w, events[0], n);
      StepRemaining(w, events[0], n);
      RunInv(Step(w, events[0], n), events[1..], last, n);
      hide Step, Inv, Remaining, Enabled;
    }
  }

  /**
   In every interleaving the counter never goes below zero, and every stage is launched once, exactly
   when all children of the stages before it have completed: the sorts with the last share, ZipAdjacent
   with the last sort and the randomness, ZipReduce with the last ZipAdjacent, the conversion with the
   last ZipReduce.
   */
  lemma EveryInterleaving(events: seq<Event>, last: World, n: nat)
    requires n >= 1 && IsRun(Start(n), events, last, n)
    ensures last.control.awaiting >= 0
    ensures last.sortLaunches <= 1 && (last.sortLaunches == 1 <==> last.sharesLeft == 0)
    ensures last.zipLaunches <= 1 && (last.zipLaunches == 1 <==> SortsDone(last) && !last.patronOut)
    ensures last.reduceLaunches <= 1 && (last.reduceLaunches == 1 <==> last.zipLaunches == 1 && last.zipsOut == 0)
    ensures last.conversions <= 1 && (last.conversions == 1 <==> last.reduceLaunches == 1 && last.reducesOut == 0)
  {
    StartInv(n);
    RunInv(Start(n), events, last, n);
  }

  /** How often an event happens. */
  function Count(events: seq<Event>, e: Event): nat {
    if events == [] then 0 else (if events[0] == e then 1 else 0) + Count(events[1..], e)
  }

  /** What is out, less the n children of every launch: every event takes one away. */
  function Balance(w: World, e: Event, n: nat): int {
    match e
    case ShareArrives => w.sharesLeft
    case PatronCompletes => if w.patronOut then 1 else 0
    case SortCompletes => w.sortsOut - n * w.sortLaunches
    case ZipAdjacentCompletes => w.zipsOut - n * w.zipLaunches
    case ZipReduceCompletes => w.reducesOut - n * w.reduceLaunches
  }

  lemma PerformBalance(w: World, c: Control, launch: Launch, e: Event, n: nat)
    ensures Balance(Perform(w, c, launch, n), e, n) == Balance(w, e, n)
  {
  }

  lemma StepBalance(w: World, e: Event, f: Event, n: nat)
    requires Enabled(w, e)
    ensures Balance(Step(w, e, n), f, n) == Balance(w, f, n) - (if e == f then 1 else 0)
  {
    hide Perform, OnReceive, OnComplete;
    match e
    case ShareArrives =>
      var (c, launch) := OnReceive(w.control, n);
      PerformBalance(w.(sharesLeft := w.sharesLeft - 1), c, launch, f, n);
    case PatronCompletes =>
      var (c, launch) := OnComplete(w.control, Patron, n);
      PerformBalance(w.(patronOut := false), c, launch, f, n);
    case SortCompletes =>
      var (c, launch) := OnComplete(w.control, Sort, n);
      PerformBalance(w.(sortsOut := w.sortsOut - 1), c, launch, f, n);
    case ZipAdjacentCompletes =>
      var (c, launch) := OnComplete(w.control, ZipAdjacent, n);
      PerformBalance(w.(zipsOut := w.zipsOut - 1), c, launch, f, n);
    case ZipReduceCompletes =>
      var (c, launch) := OnComplete(w.control, ZipReduce, n);
      PerformBalance(w.(reducesOut := w.reducesOut - 1), c, launch, f, n);
  }

  lemma {:induction false} RunBalance(w: World, events: seq<Event>, last: World, e: Event, n: nat)
    requires IsRun(w, events, last, n)
    ensures Balance(last, e, n) == Balance(w, e, n) - Count(events, e)
    decreases |events|
  {
    if |events| > 0 {
      StepBalance(w, events[0], e, n);
      RunBalance(Step(w, events[0], n), events[1..], last, e, n);
      hide Step, Balance, Enabled;
    }
  }

  /**
   The same on the events themselves: ZipAdjacent has been launched when n shares, n sorts and the
   patron are through, ZipReduce when n ZipAdjacents are through as well, the conversion when n
   ZipReduces are.
   */
  lemma LaunchedByEvents(events: seq<Event>, last: World, n: nat)
    requires n >= 1 && IsRun(Start(n), events, last, n)
    ensures last.sortLaunches == 1 <==> Count(events, ShareArrives) == n
    ensures last.zipLaunches == 1 <==> Count(events, SortCompletes) == n && Count(events, PatronCompletes) == 1
    ensures last.reduceLaunches == 1 <==> Count(events, ZipAdjacentCompletes) == n
    ensures last.conversions == 1 <==> Count(events, ZipReduceCompletes) == n
    ensures Count(events, SortCompletes) > 0 ==> Count(events, ShareArrives) == n
    ensures Count(events, ZipAdjacentCompletes) > 0 ==>
      Count(events, SortCompletes) == n && Count(events, PatronCompletes) == 1
    ensures Count(events, ZipReduceCompletes) > 0 ==> Count(events, ZipAdjacentCompletes) == n
  {
    StartInv(n);
    RunInv(Start(n), events, last, n);
    RunBalance(Start(n), events, last, ShareArrives, n);
    RunBalance(Start(n), events, last, PatronCompletes, n);
    RunBalance(Start(n), events, last, SortCompletes, n);
    RunBalance(Start(n), events, last, ZipAdjacentCompletes, n);
    RunBalance(Start(n), events, last, ZipReduceCompletes, n);
    hide IsRun, Count;
    LaunchCounts(last, n, Count(events, SortCompletes), Count(events, ZipAdjacentCompletes),
                 Count(events, ZipReduceCompletes));
  }

  lemma LaunchCounts(w: World, n: nat, sorts: nat, zips: nat, reduces: nat)
    requires n >= 1 && Inv(w, n)
    requires w.sortsOut + sorts == n * w.sortLaunches && w.zipsOut + zips == n * w.zipLaunches
    requires w.reducesOut + reduces == n * w.reduceLaunches
    ensures (sorts == n <==> SortsDone(w)) && (w.sharesLeft > 0 ==> sorts == 0)
    ensures (zips == n <==> w.reduceLaunches == 1) && (w.zipLaunches == 0 ==> zips == 0)
    ensures (reduces == n <==> w.conversions == 1) && (w.reduceLaunches == 0 ==> reduces == 0)
  {
  }

  /** A handler that decrements the counter always finds it positive. */
  lemma CounterPositive(events: seq<Event>, last: World, e: Event, n: nat)
    requires n >= 1 && IsRun(Start(n), events, last, n) && Enabled(last, e) && e != PatronCompletes
    ensures last.control.awaiting > 0
  {
    StartInv(n);
    RunInv(Start(n), events, last, n);
  }

  /** The end all interleavings reach. */
  function Final(n: nat): World {
    World(Control(AwaitingBatchedModConvUp, 0, true), 0, false, 0, 0, 0, 1, 1, 1, 1)
  }

  /**
   Every run is at most 4n + 1 events long and can be continued until it has that length, and then
   the party is in one and the same state, with every stage launched once.
   */
  lemma EveryRunCompletes(events: seq<Event>, last: World, n: nat)
    requires n >= 1 && IsRun(Start(n), events, last, n)
    ensures |events| <= 4 * n + 1
    ensures |events| == 4 * n + 1 <==> last == Final(n)
    ensures |events| < 4 * n + 1 ==> exists e :: Enabled(last, e)
  {
    StartInv(n);
    RunInv(Start(n), events, last, n);
    if |events| < 4 * n + 1 {
      var e := Progress(last, n);
    }
  }

  /** Without cross parties only the patron can complete, and no stage is ever launched. */
  lemma NoCrossParties(events: seq<Event>, last: World)
    requires IsRun(Start(0), events, last, 0)
    ensures last.sortLaunches == 0 && last.zipLaunches == 0 && last.reduceLaunches == 0 && last.conversions == 0
  {
    if |events| > 0 {
      assert events[0] == PatronCompletes;
      var w := Step(Start(0), events[0], 0);
      NothingMore(w, events[1..], last, 0);
    }
  }

  lemma NothingMore(w: World, events: seq<Event>, last: World, n: nat)
    requires IsRun(w, events, last, n) && forall e :: !Enabled(w, e)
    ensures events == [] && last == w
  {
  }
}
