/** `App`: the state the event loop folds events into. */
module AppState {
  import opened Wrappers
  import opened Processes
  import opened SysInfo

  /** The value of an `App` at one moment; the event functions are stated over it.
      `selected` is the table's `selected()` index. */
  datatype AppValue = AppValue(
    exit: bool,
    processes: seq<ProcessInfo>,
    systemInfo: SystemInfo,
    selected: Option<nat>,
    sortColumn: nat,
    sortDesc: bool)
  {
    /** `sort_column` indexes `COLUMNS`. */
    predicate Valid() {
      sortColumn < |COLUMNS|
    }
  }

  class App {
    var exit: bool
    var processes: seq<ProcessInfo>
    var systemInfo: SystemInfo
    var selected: Option<nat>
    var sortColumn: nat
    var sortDesc: bool

    function State(): AppValue
      reads this
    {
      AppValue(exit, processes, systemInfo, selected, sortColumn, sortDesc)
    }

    predicate Valid()
      reads this
    {
      State().Valid()
    }

    /** `Default for App`. */
    constructor ()
      ensures Valid()
      ensures !exit && processes == [] && systemInfo.uptime == 0 && selected == None
      ensures sortColumn == 0 && sortDesc
    {
      exit := false;
      processes := [];
      systemInfo := DefaultSystemInfo();
      selected := None;
      sortColumn := 0;
      sortDesc := true;
    }
  }
}
