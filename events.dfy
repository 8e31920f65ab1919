/** The events the loop drains and how each one changes the `App`. */
module Events {
  import opened Wrappers
  import opened Processes
  import SysInfo
  import opened Sort
  import opened AppState

  /** The key codes the loop tells apart; every other code is `Other`. */
  datatype KeyCode = Char(c: char) | Up | Down | Left | Right | Other

  datatype KeyEventKind = Press | Release | Repeat

  datatype KeyEvent = KeyEvent(code: KeyCode, kind: KeyEventKind)

  datatype Event =
    | Input(key: KeyEvent)
    | Processes(procs: seq<ProcessInfo>)
    | SystemInfo(info: SysInfo.SystemInfo)

  /** The receiving end of the event channel: the events sent and not yet received, oldest
      first. */
  class Receiver {
    var pending: seq<Event>

    constructor (pending: seq<Event>)
      ensures this.pending == pending
    {
      this.pending := pending;
    }

    /** `try_recv`: the oldest pending event, or nothing (without waiting) when none is pending. */
    method TryRecv() returns (r: Option<Event>)
      modifies this
      ensures old(pending) == [] ==> r == None && pending == []
      ensures old(pending) != [] ==> r == Some(old(pending)[0]) && pending == old(pending)[1..]
    {
      if pending == [] {
        r := None;
      } else {
        r := Some(pending[0]);
        pending := pending[1..];
      }
    }

    /** The producers' sends: appended behind everything already pending. */
    method Send(batch: seq<Event>)
      modifies this
      ensures pending == old(pending) + batch
    {
      pending := pending + batch;
    }
  }

  // ---------------------------------------------------------------- the transition functions

  /** `handle_key` as a function of the state. */
  function KeyStep(s: AppValue, key: KeyEvent): (r: AppValue)
    ensures r.processes == s.processes && r.systemInfo == s.systemInfo
    ensures s.Valid() ==> r.Valid()
  {
    if key.kind != Press then s
    else
      match key.code
      case Char(c) =>
        if c == 'q' then s.(exit := true)
        else if c == 's' then s.(sortDesc := !s.sortDesc)
        else s
      case Down =>
        var i := match s.selected
          case Some(i) => if i + 1 >= |s.processes| then i else i + 1
          case None => 0;
        s.(selected := Some(i))
      case Up =>
        var i := match s.selected
          case Some(i) => if i > 0 then i - 1 else 0
          case None => 0;
        s.(selected := Some(i))
      case Left => s.(sortColumn := (s.sortColumn + |COLUMNS| - 1) % |COLUMNS|)
      case Right => s.(sortColumn := (s.sortColumn + 1) % |COLUMNS|)
      case Other => s
  }

  /** One arm of the `match` in `handle_events`. */
  function EventStep(s: AppValue, e: Event): (r: AppValue)
    requires s.Valid()
    ensures r.Valid()
  {
    match e
    case Input(key) => KeyStep(s, key)
    case Processes(procs) => s.(processes := StableSort(s.sortColumn, s.sortDesc, procs))
    case SystemInfo(info) => s.(systemInfo := info)
  }

  /** Applying a sequence of events, oldest first. */
  function Drain(s: AppValue, events: seq<Event>): (r: AppValue)
    requires s.Valid()
    ensures r.Valid()
    decreases |events|
  {
    if events == [] then s else Drain(EventStep(s, events[0]), events[1..])
  }

  // ---------------------------------------------------------------- the methods

  /** `handle_key`. */
  method HandleKey(app: App, key: KeyEvent)
    modifies app
    ensures app.State() == KeyStep(old(app.State()), key)
  {
    if key.kind != Press {
      return;
    }
    match key.code
    case Char(c) =>
      if c == 'q' {
        app.exit := true;
      } else if c == 's' {
        app.sortDesc := !app.sortDesc;
      }
    case Down =>
      var i := match app.selected
        case Some(i) => if i + 1 >= |app.processes| then i else i + 1
        case None => 0;
      app.selected := Some(i);
    case Up =>
      var i := match app.selected
        case Some(i) => if i > 0 then i - 1 else 0
        case None => 0;
      app.selected := Some(i);
    case Left =>
      app.sortColumn := (app.sortColumn + |COLUMNS| - 1) % |COLUMNS|;
    case Right =>
      app.sortColumn := (app.sortColumn + 1) % |COLUMNS|;
    case Other =>
  }

  /** `handle_events`: receives until the channel has nothing pending, applying each event. */
  method HandleEvents(app: App, rx: Receiver)
    requires app.Valid()
    modifies app, rx
    ensures app.Valid()
    ensures rx.pending == []
    ensures app.State() == Drain(old(app.State()), old(rx.pending))
  {
    while true
      invariant app.Valid()
      invariant Drain(app.State(), rx.pending) == Drain(old(app.State()), old(rx.pending))
      decreases |rx.pending|
    {
      var next := rx.TryRecv();
      if next == None {
        break;
      }
      match next.value
      case Input(key) =>
        HandleKey(app, key);
      case Processes(procs) =>
        var buffer := new ProcessInfo[|procs|](k requires 0 <= k < |procs| => procs[k]);
        assert buffer[..] == procs;
        SortProcesses(buffer, app.sortColumn, app.sortDesc);
        app.processes := buffer[..];
      case SystemInfo(info) =>
        app.systemInfo := info;
    }
  }

  // ---------------------------------------------------------------- keys

  function Pressed(code: KeyCode): KeyEvent {
    KeyEvent(code, Press)
  }

  /** Release and repeat events change nothing. */
  lemma NonPressIsIgnored(s: AppValue, key: KeyEvent)
    requires key.kind != Press
    ensures KeyStep(s, key) == s
  {
  }

  /** `q` sets `exit` and nothing else. */
  lemma QuitKey(s: AppValue)
    ensures KeyStep(s, Pressed(Char('q'))) == s.(exit := true)
  {
  }

  /** Down selects the first row when nothing is selected, otherwise the next row if there is
      one and the same row if not; only the selection changes. */
  lemma DownKey(s: AppValue)
    ensures var r := KeyStep(s, Pressed(Down));
      && r == s.(selected := r.selected)
      && (s.selected == None ==> r.selected == Some(0))
      && (s.selected.Some? && s.selected.value + 1 < |s.processes| ==> r.selected == Some(s.selected.value + 1))
      && (s.selected.Some? && s.selected.value + 1 >= |s.processes| ==> r.selected == s.selected)
  {
  }

  /** A selection inside the table stays inside it after Down. */
  lemma DownStaysInTable(s: AppValue)
    requires s.selected.Some? && s.selected.value < |s.processes|
    ensures KeyStep(s, Pressed(Down)).selected.value < |s.processes|
  {
  }

  /** Up selects the previous row, or row 0 when at the top or when nothing is selected; only
      the selection changes. */
  lemma UpKey(s: AppValue)
    ensures var r := KeyStep(s, Pressed(Up));
      && r == s.(selected := r.selected)
      && (s.selected.Some? && s.selected.value > 0 ==> r.selected == Some(s.selected.value - 1))
      && (s.selected.None? || s.selected.value == 0 ==> r.selected == Some(0))
  {
  }

  /** A selection inside a nonempty table stays inside it after Up. */
  lemma UpStaysInTable(s: AppValue)
    requires s.processes != []
    requires s.selected.Some? ==> s.selected.value < |s.processes|
    ensures KeyStep(s, Pressed(Up)).selected.value < |s.processes|
  {
  }

  /** Left and Right always yield a valid column and wrap around at the ends. */
  lemma LeftRightWrap(s: AppValue)
    ensures KeyStep(s, Pressed(Left)).sortColumn < |COLUMNS| && KeyStep(s, Pressed(Right)).sortColumn < |COLUMNS|
    ensures s.sortColumn == 0 ==> KeyStep(s, Pressed(Left)).sortColumn == 3
    ensures s.sortColumn == 3 ==> KeyStep(s, Pressed(Right)).sortColumn == 0
  {
  }

  /** Left undoes Right and Right undoes Left. */
  lemma LeftRightInverse(s: AppValue)
    requires s.Valid()
    ensures KeyStep(KeyStep(s, Pressed(Left)), Pressed(Right)) == s
    ensures KeyStep(KeyStep(s, Pressed(Right)), Pressed(Left)) == s
  {
  }

  /** Four Rights go once round the columns. */
  lemma FourRights(s: AppValue)
    requires s.Valid()
    ensures Drain(s, [Input(Pressed(Right)), Input(Pressed(Right)), Input(Pressed(Right)), Input(Pressed(Right))]) == s
  {
    var key := Pressed(Right);
    var e := Input(key);
    var s1 := RightStep(s);
    var s2 := RightStep(s1);
    var s3 := RightStep(s2);
    var s4 := RightStep(s3);
    DrainFirst(s, e, [e, e, e]);
    DrainFirst(s1, e, [e, e]);
    DrainFirst(s2, e, [e]);
    DrainFirst(s3, e, []);
  }

  /** One Right, spelled out without `%`. */
  lemma RightStep(s: AppValue) returns (r: AppValue)
    requires s.Valid()
    ensures r.Valid() && r == EventStep(s, Input(Pressed(Right)))
    ensures r == s.(sortColumn := if s.sortColumn == 3 then 0 else s.sortColumn + 1)
  {
    r := KeyStep(s, Pressed(Right));
  }

  /** `s` flips the direction, so two presses restore it. */
  lemma ToggleDirection(s: AppValue)
    ensures KeyStep(s, Pressed(Char('s'))) == s.(sortDesc := !s.sortDesc)
    ensures KeyStep(KeyStep(s, Pressed(Char('s'))), Pressed(Char('s'))) == s
  {
  }

  /** Every other key changes nothing. */
  lemma OtherKeysIgnored(s: AppValue, code: KeyCode)
    requires code.Other? || (code.Char? && code.c != 'q' && code.c != 's')
    ensures KeyStep(s, Pressed(code)) == s
  {
  }

  // ---------------------------------------------------------------- snapshots

  /** A process snapshot becomes the list, as a permutation sorted stably by the current
      column and direction; nothing else changes. */
  lemma ProcessesEvent(s: AppValue, procs: seq<ProcessInfo>)
    requires s.Valid()
    ensures var r := EventStep(s, Processes(procs));
      && r == s.(processes := r.processes)
      && multiset(r.processes) == multiset(procs)
      && Sorted(s.sortColumn, s.sortDesc, r.processes)
      && Stable(s.sortColumn, s.sortDesc, procs, r.processes)
  {
    StableSortCorrect(s.sortColumn, s.sortDesc, procs);
  }

  /** A system snapshot replaces `system_info` and nothing else. */
  lemma SystemInfoEvent(s: AppValue, info: SysInfo.SystemInfo)
    requires s.Valid()
    ensures EventStep(s, SystemInfo(info)) == s.(systemInfo := info)
  {
  }

  // ---------------------------------------------------------------- draining

  lemma DrainNothing(s: AppValue)
    requires s.Valid()
    ensures Drain(s, []) == s
  {
  }

  /** Draining starts with the oldest event. */
  lemma DrainFirst(s: AppValue, e: Event, rest: seq<Event>)
    requires s.Valid()
    ensures Drain(s, [e] + rest) == Drain(EventStep(s, e), rest)
  {
    assert ([e] + rest)[1..] == rest;
  }

  /** Events are applied strictly in queue order: draining `a + b` is draining `a`, then `b`. */
  lemma {:induction false} DrainAppend(s: AppValue, a: seq<Event>, b: seq<Event>)
    requires s.Valid()
    ensures Drain(s, a + b) == Drain(Drain(s, a), b)
    decreases |a|
  {
    if a == [] {
      assert a + b == b;
    } else {
      assert (a + b)[0] == a[0] && (a + b)[1..] == a[1..] + b;
      DrainAppend(EventStep(s, a[0]), a[1..], b);
    }
  }

  predicate NoProcessesEvent(events: seq<Event>) {
    forall i :: 0 <= i < |events| ==> !events[i].Processes?
  }

  predicate NoInputEvent(events: seq<Event>) {
    forall i :: 0 <= i < |events| ==> !events[i].Input?
  }

  /** Only a Processes event changes the list: keys never re-sort it. */
  lemma {:induction false} ListChangesOnlyOnSnapshot(s: AppValue, events: seq<Event>)
    requires s.Valid() && NoProcessesEvent(events)
    ensures Drain(s, events).processes == s.processes
    decreases |events|
  {
    if events != [] {
      assert !events[0].Processes?;
      ListChangesOnlyOnSnapshot(EventStep(s, events[0]), events[1..]);
    }
  }

  /** Only key presses change the exit flag, the selection and the sort settings. */
  lemma {:induction false} ControlsChangeOnlyOnInput(s: AppValue, events: seq<Event>)
    requires s.Valid() && NoInputEvent(events)
    ensures var r := Drain(s, events);
      r.exit == s.exit && r.selected == s.selected && r.sortColumn == s.sortColumn && r.sortDesc == s.sortDesc
    decreases |events|
  {
    if events != [] {
      assert !events[0].Input?;
      ControlsChangeOnlyOnInput(EventStep(s, events[0]), events[1..]);
    }
  }

  // ---------------------------------------------------------------- where the state is not kept consistent

  /** A shorter snapshot leaves the selection as it was, past the end of the new list. This is
      the state `handle_events` hands to the draw; the table widget, which renders with
      `&mut table_state`, may still move the selection, and that is not modelled. */
  lemma SnapshotKeepsStaleSelection(s: AppValue)
    requires s.Valid() && s.selected == Some(2)
    ensures EventStep(s, Processes([])).selected == Some(2)
  {
  }

  /** Down on an empty table selects row 0, which does not exist. Like the lemma above, this is
      the state before the draw, which may still move the selection. */
  lemma DownOnEmptyTable(s: AppValue)
    requires s.processes == [] && s.selected == None
    ensures KeyStep(s, Pressed(Down)).selected == Some(0)
  {
  }

  const P1 := ProcessInfo(1, "b", 0, 0)
  const P2 := ProcessInfo(2, "a", 0, 0)

  /** Changing the sort column by key leaves the list in the old column's order. */
  lemma SortKeyChangeDoesNotResort()
    ensures var s := AppValue(false, [P1, P2], SysInfo.SystemInfo(0), None, 0, false);
      var r := KeyStep(s, Pressed(Right));
      && Sorted(0, false, s.processes)
      && r.sortColumn == 1 && r.processes == s.processes
      && !Sorted(1, false, r.processes)
  {
    assert COLUMNS[1].cmp == ByName;
    assert CompareStrings("b", "a") == Greater;
    assert Cmp(1, false, P1, P2) == Greater;
    assert Cmp(0, false, P1, P2) == Less;
    var ps := [P1, P2];
    assert ps[0] == P1 && ps[1] == P2;
    assert KeyStep(AppValue(false, ps, SysInfo.SystemInfo(0), None, 0, false), Pressed(Right)).sortColumn == 1;
  }

  // ---------------------------------------------------------------- worked examples

  const Slow := ProcessInfo(5, "slow", 1000, 0)
  const Busy := ProcessInfo(2, "busy", 9000, 0)

  /** Two processes sorted by pid ascending, by pid descending, and by cpu ascending. */
  lemma EndToEnd(s: AppValue)
    requires s.Valid()
    ensures s.sortColumn == 0 && !s.sortDesc ==> EventStep(s, Processes([Slow, Busy])).processes == [Busy, Slow]
    ensures s.sortColumn == 0 && s.sortDesc ==> EventStep(s, Processes([Slow, Busy])).processes == [Slow, Busy]
    ensures s.sortColumn == 2 && !s.sortDesc ==> EventStep(s, Processes([Slow, Busy])).processes == [Slow, Busy]
  {
    StableSortPair(s.sortColumn, s.sortDesc, Slow, Busy);
  }

  /** Three rows and no selection: Down selects 0, then 1, then 2, and stays at 2. */
  lemma DownThroughThreeRows(s: AppValue)
    requires s.Valid() && |s.processes| == 3 && s.selected == None
    ensures Drain(s, [Input(Pressed(Down))]).selected == Some(0)
    ensures Drain(s, [Input(Pressed(Down)), Input(Pressed(Down))]).selected == Some(1)
    ensures Drain(s, [Input(Pressed(Down)), Input(Pressed(Down)), Input(Pressed(Down)), Input(Pressed(Down))]).selected == Some(2)
  {
  }
}
