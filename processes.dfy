/** Process snapshot entries and the fixed table of sortable columns. */
module Processes {
  import opened MachineInts
  import opened Wrappers

  /** `ProcessInfo`. `cpuUsage` stands for the `f32` percentage as a whole number of
      hundredths of a percent, so every two values are comparable. */
  datatype ProcessInfo = ProcessInfo(pid: i32, name: string, cpuUsage: int, ramUsage: u64)

  /** `std::cmp::Ordering`. */
  datatype Ordering = Less | Equal | Greater {

    /** `Ordering::reverse`. */
    function Reverse(): Ordering {
      match this
      case Less => Greater
      case Equal => Equal
      case Greater => Less
    }
  }

  /** The four comparator closures of `COLUMNS`, as named strategies. */
  datatype Comparator = ByPid | ByName | ByCpu | ByMem

  /** `Column`: a stable identifier, a header title and the comparator. */
  datatype Column = Column(id: string, title: string, cmp: Comparator)

  const COLUMNS: seq<Column> := [
    Column("pid", "PID", ByPid),
    Column("name", "NAME", ByName),
    Column("cpu", "CPU%", ByCpu),
    Column("mem", "MEM", ByMem)
  ]

  /** `Ord::cmp` on integers. */
  function CompareInts(x: int, y: int): Ordering {
    if x < y then Less else if x > y then Greater else Equal
  }

  /** `PartialOrd::partial_cmp` on the cpu stand-in: integers are always comparable. */
  function PartialCompareCpu(x: int, y: int): (r: Option<Ordering>)
    ensures r.Some?
    ensures r.value == Less <==> x < y
    ensures r.value == Equal <==> x == y
    ensures r.value == Greater <==> x > y
  {
    Some(CompareInts(x, y))
  }

  /** `Ord::cmp` on strings: lexicographic, character by character, a proper prefix first. */
  function CompareStrings(x: string, y: string): (r: Ordering)
    ensures r == Equal <==> x == y
    decreases |x|
  {
    if x == [] then (if y == [] then Equal else Less)
    else if y == [] then Greater
    else if x[0] < y[0] then Less
    else if x[0] > y[0] then Greater
    else
      assert x == [x[0]] + x[1..] && y == [y[0]] + y[1..];
      CompareStrings(x[1..], y[1..])
  }

  /** The two entries agree on the field the comparator looks at. */
  predicate SameKey(c: Comparator, a: ProcessInfo, b: ProcessInfo) {
    match c
    case ByPid => a.pid == b.pid
    case ByName => a.name == b.name
    case ByCpu => a.cpuUsage == b.cpuUsage
    case ByMem => a.ramUsage == b.ramUsage
  }

  /** The comparator of one column applied to two entries: a tie exactly when the column's
      field is the same. */
  function Compare(c: Comparator, a: ProcessInfo, b: ProcessInfo): (r: Ordering)
    ensures r == Equal <==> SameKey(c, a, b)
  {
    match c
    case ByPid => CompareInts(a.pid, b.pid)
    case ByName => CompareStrings(a.name, b.name)
    case ByCpu => PartialCompareCpu(a.cpuUsage, b.cpuUsage).UnwrapOr(Equal)
    case ByMem => CompareInts(a.ramUsage, b.ramUsage)
  }

  /** Lexicographic "less than", stated independently of `CompareStrings`: `x` is a proper
      prefix of `y`, or the first position where they differ holds a smaller character in `x`. */
  ghost predicate LexLess(x: string, y: string) {
    (|x| < |y| && x == y[..|x|])
    || exists k :: 0 <= k < |x| && k < |y| && x[..k] == y[..k] && x[k] < y[k]
  }

  /** The table has exactly four columns, in order pid, name, cpu, mem. */
  lemma ColumnsTable()
    ensures |COLUMNS| == 4
    ensures COLUMNS[0] == Column("pid", "PID", ByPid)
    ensures COLUMNS[1] == Column("name", "NAME", ByName)
    ensures COLUMNS[2] == Column("cpu", "CPU%", ByCpu)
    ensures COLUMNS[3] == Column("mem", "MEM", ByMem)
  {
  }

  lemma {:induction false} CompareStringsAntisymmetric(x: string, y: string)
    ensures CompareStrings(x, y) == CompareStrings(y, x).Reverse()
    decreases |x|
  {
    if x != [] && y != [] && x[0] == y[0] {
      CompareStringsAntisymmetric(x[1..], y[1..]);
    }
  }

  lemma {:induction false} CompareStringsTransitive(x: string, y: string, z: string)
    requires CompareStrings(x, y) != Greater && CompareStrings(y, z) != Greater
    ensures CompareStrings(x, z) != Greater
    decreases |x|
  {
    if x != [] && y != [] && z != [] && x[0] == y[0] == z[0] {
      CompareStringsTransitive(x[1..], y[1..], z[1..]);
    }
  }

  /** The name comparator is lexicographic order, in both directions. */
  lemma {:induction false} CompareStringsLexicographic(x: string, y: string)
    ensures CompareStrings(x, y) == Less <==> LexLess(x, y)
    decreases |x|
  {
    if x == [] || y == [] {
      if x == [] && y != [] {
        assert |x| < |y| && x == y[..|x|];
      }
    } else if x[0] < y[0] {
      assert x[..0] == y[..0];
    } else if x[0] > y[0] {
      forall k | 0 < k <= |x| && k <= |y| ensures x[..k] != y[..k] {
        assert x[..k][0] != y[..k][0];
      }
    } else {
      var x', y' := x[1..], y[1..];
      CompareStringsLexicographic(x', y');
      if LexLess(x', y') {
        if |x'| < |y'| && x' == y'[..|x'|] {
          assert x == [x[0]] + x' && y[..|x|] == [y[0]] + y'[..|x'|];
        } else {
          var k :| 0 <= k < |x'| && k < |y'| && x'[..k] == y'[..k] && x'[k] < y'[k];
          assert x[..k + 1] == [x[0]] + x'[..k] && y[..k + 1] == [y[0]] + y'[..k];
          assert x[k + 1] == x'[k] && y[k + 1] == y'[k];
        }
      }
      if LexLess(x, y) {
        if |x| < |y| && x == y[..|x|] {
          assert x' == y'[..|x'|];
        } else {
          var k :| 0 <= k < |x| && k < |y| && x[..k] == y[..k] && x[k] < y[k];
          assert k != 0;
          assert x'[..k - 1] == x[..k][1..] && y'[..k - 1] == y[..k][1..];
          assert x'[k - 1] == x[k] && y'[k - 1] == y[k];
        }
      }
    }
  }

  /** Every column compares an entry Equal to itself. */
  lemma CompareReflexive(c: Comparator, a: ProcessInfo)
    ensures Compare(c, a, a) == Equal
  {
  }

  /** `cmp(a, b)` is the reverse of `cmp(b, a)` for every column. */
  lemma CompareAntisymmetric(c: Comparator, a: ProcessInfo, b: ProcessInfo)
    ensures Compare(c, a, b) == Compare(c, b, a).Reverse()
  {
    if c == ByName {
      CompareStringsAntisymmetric(a.name, b.name);
    }
  }

  /** "Not Greater" is transitive for every column: each comparator is a total preorder. */
  lemma CompareTransitive(c: Comparator, a: ProcessInfo, b: ProcessInfo, d: ProcessInfo)
    requires Compare(c, a, b) != Greater && Compare(c, b, d) != Greater
    ensures Compare(c, a, d) != Greater
  {
    if c == ByName {
      CompareStringsTransitive(a.name, b.name, d.name);
    }
  }

  /** The pid, cpu and mem comparators are the integer order of their field. */
  lemma NumericColumnsOrder(a: ProcessInfo, b: ProcessInfo)
    ensures (Compare(ByPid, a, b) == Less <==> a.pid < b.pid)
         && (Compare(ByPid, a, b) == Equal <==> a.pid == b.pid)
    ensures (Compare(ByCpu, a, b) == Less <==> a.cpuUsage < b.cpuUsage)
         && (Compare(ByCpu, a, b) == Equal <==> a.cpuUsage == b.cpuUsage)
    ensures (Compare(ByMem, a, b) == Less <==> a.ramUsage < b.ramUsage)
         && (Compare(ByMem, a, b) == Equal <==> a.ramUsage == b.ramUsage)
  {
  }

  /** The name comparator: Less is lexicographic order, Equal is equality of names. */
  lemma NameColumnOrder(a: ProcessInfo, b: ProcessInfo)
    ensures Compare(ByName, a, b) == Less <==> LexLess(a.name, b.name)
    ensures Compare(ByName, a, b) == Equal <==> a.name == b.name
  {
    CompareStringsLexicographic(a.name, b.name);
  }
}
