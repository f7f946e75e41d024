/**
 The point-file observer: one run visits the mirror file of every PCM in turn and repairs it
 from the point table, under a flag per file.  A file is the sequence of whole values on disk.
 Which opens and removals the file system lets through is a parameter of each run.
 */
module PointObserver {
  const MAX_NET32_NUMBER: nat := 32
  const MAX_POINT_NUMBER: nat := 256

  datatype File = Missing | Present(cells: seq<real>)

  /**
   Whether opening with "r", "r+" and "w" succeeds for a file that is there, and removing it:
   a removal is tried anew for every value that cannot be read.
   */
  datatype Outcomes = Outcomes(readable: bool, writable: bool, creatable: bool, removable: nat -> bool)

  const ALL_SUCCEED := Outcomes(true, true, true, _ => true)

  /** Whether one of the removals tried for the values from `first` up to `end` succeeds. */
  predicate Removed(o: Outcomes, first: nat, end: nat) {
    exists j :: first <= j < end && o.removable(j)
  }

  type Disk = map<string, seq<real>>

  /** What a run changes. */
  datatype Store = Store(disk: Disk, flags: seq<int>)

  type Table = seq<seq<real>>

  ghost predicate IsTable(t: Table) {
    |t| == MAX_NET32_NUMBER && forall i | 0 <= i < MAX_NET32_NUMBER :: |t[i]| == MAX_POINT_NUMBER
  }

  ghost predicate IsStore(s: Store) {
    |s.flags| == MAX_NET32_NUMBER
  }

  // ---------------------------------------------------------------- file names

  function Digit(d: nat): char
    requires d < 10
  {
    (d + 48) as char
  }

  /** The two digits patched into the name. */
  function FileName(i: nat): string
    requires i < 100
  {
    "/duksan/DATA/point" + [Digit(i / 10), Digit(i % 10)] + ".dat"
  }

  lemma NamesDistinct(i: nat, j: nat)
    requires i < 100 && j < 100 && FileName(i) == FileName(j)
    ensures i == j
  {
    assert FileName(i)[18] == Digit(i / 10) && FileName(i)[19] == Digit(i % 10);
    assert FileName(j)[18] == Digit(j / 10) && FileName(j)[19] == Digit(j % 10);
  }

  /** The name of a file spells its number in decimal. */
  lemma NameSpellsNumber(i: nat)
    requires i < 100
    ensures FileName(i)[..18] == "/duksan/DATA/point" && FileName(i)[20..] == ".dat"
    ensures |FileName(i)| == 24
    ensures '0' <= FileName(i)[18] <= '9' && '0' <= FileName(i)[19] <= '9'
    ensures 10 * (FileName(i)[18] as int - '0' as int) + (FileName(i)[19] as int - '0' as int) == i
  {
    assert FileName(i)[18] == Digit(i / 10) && FileName(i)[19] == Digit(i % 10);
  }

  /** The only name that spells `i` is the one the run uses. */
  lemma NameOfDigits(i: nat, tens: char, ones: char)
    requires '0' <= tens <= '9' && '0' <= ones <= '9'
    requires i == 10 * (tens as int - '0' as int) + (ones as int - '0' as int)
    ensures FileName(i) == "/duksan/DATA/point" + [tens, ones] + ".dat"
  {
    assert i / 10 == tens as int - '0' as int && i % 10 == ones as int - '0' as int;
  }

  // ---------------------------------------------------------------- what a run does to one file

  function Lookup(disk: Disk, name: string): File {
    if name in disk then Present(disk[name]) else Missing
  }

  function Update(disk: Disk, name: string, f: File): Disk {
    match f
    case Missing => disk - {name}
    case Present(cells) => disk[name := cells]
  }

  lemma UpdateLookup(disk: Disk, name: string)
    ensures Update(disk, name, Lookup(disk, name)) == disk
  {
    if name in disk {
      assert disk[name := disk[name]] == disk;
    } else {
      assert disk - {name} == disk;
    }
  }

  /** Opening with "w" and writing the row; a failed open changes nothing. */
  function Created(f: File, row: seq<real>, o: Outcomes): File {
    if o.creatable then Present(row) else f
  }

  /** Reading along the row and rewriting what differs; a file that ends early is removed. */
  function Repaired(cells: seq<real>, row: seq<real>, o: Outcomes): File {
    if |cells| >= |row| then Present(row + cells[|row|..])
    else if Removed(o, |cells|, |row|) then Missing
    else Present(row[..|cells|])
  }

  predicate Opens(f: File, o: Outcomes) {
    f.Present? && o.readable
  }

  function CheckedFile(f: File, flag: int, row: seq<real>, o: Outcomes): File {
    if !Opens(f, o) then Created(f, row, o)
    else if flag != 0 then f
    else if o.writable then Repaired(f.cells, row, o)
    else Created(f, row, o)
  }

  /** The flag is taken to repair a file and given back, unless the second open fails. */
  function CheckedFlag(f: File, flag: int, o: Outcomes): int {
    if Opens(f, o) && flag == 0 && !o.writable then 1 else flag
  }

  function CheckFile(s: Store, i: nat, row: seq<real>, o: Outcomes): Store
    requires i < |s.flags| && i < 100
  {
    var f := Lookup(s.disk, FileName(i));
    Store(Update(s.disk, FileName(i), CheckedFile(f, s.flags[i], row, o)),
          s.flags[i := CheckedFlag(f, s.flags[i], o)])
  }

  /** The store after the first `k` files of a run. */
  ghost function RunFirst(s: Store, table: Table, env: nat -> Outcomes, k: nat): (r: Store)
    requires IsStore(s) && IsTable(table) && k <= MAX_NET32_NUMBER
    ensures IsStore(r)
  {
    if k == 0 then s else CheckFile(RunFirst(s, table, env, k - 1), k - 1, table[k - 1], env(k - 1))
  }

  /** The store after a whole run. */
  ghost function Run(s: Store, table: Table, env: nat -> Outcomes): (r: Store)
    requires IsStore(s) && IsTable(table)
    ensures IsStore(r)
  {
    RunFirst(s, table, env, MAX_NET32_NUMBER)
  }

  /** Writing the row's value at the read position extends the repaired part by one. */
  lemma Rewritten(row: seq<real>, before: seq<real>, pos: nat)
    requires pos < |row| && pos < |before|
    ensures (row[..pos] + before[pos..])[pos := row[pos]] == row[..pos + 1] + before[pos + 1..]
    ensures before[pos] == row[pos] ==> row[..pos] + before[pos..] == row[..pos + 1] + before[pos + 1..]
  {
  }

  // ---------------------------------------------------------------- the state machine

  datatype Status =
    GetFileName | FileStatusCheck | FileCreate | FileRead | FileAccessFailed | IncreaseIndex | FinishFileCheckProcess

  function Rank(s: Status): nat {
    match s
    case GetFileName => 5
    case FileStatusCheck => 4
    case FileRead => 3
    case FileCreate => 2
    case FileAccessFailed => 2
    case IncreaseIndex => 1
    case FinishFileCheckProcess => 0
  }

  class Observer {
    var disk: Disk
    const file_access: array<int>
    const point_table: array2<real>

    ghost predicate Valid()
    {
      file_access.Length == MAX_NET32_NUMBER &&
      point_table.Length0 == MAX_NET32_NUMBER && point_table.Length1 == MAX_POINT_NUMBER
    }

    ghost function Value(): Store
      reads this, file_access
    {
      Store(disk, file_access[..])
    }

    constructor (disk: Disk)
      ensures Valid() && fresh(file_access) && fresh(point_table)
      ensures file_access.Length == point_table.Length0 == 32 && point_table.Length1 == 256
      ensures Value() == Store(disk, seq(MAX_NET32_NUMBER, _ => 0))
    {
      this.disk := disk;
      file_access := new int[MAX_NET32_NUMBER](_ => 0);
      point_table := new real[MAX_NET32_NUMBER, MAX_POINT_NUMBER]((i, j) => 0.0);
    }

    ghost function Row(i: nat): (row: seq<real>)
      requires Valid() && i < MAX_NET32_NUMBER
      reads point_table
      ensures |row| == MAX_POINT_NUMBER
      ensures forall j | 0 <= j < MAX_POINT_NUMBER :: row[j] == point_table[i, j]
    {
      seq(MAX_POINT_NUMBER, j requires 0 <= j < MAX_POINT_NUMBER && Valid() && i < MAX_NET32_NUMBER
        reads point_table => point_table[i, j])
    }

    ghost function Rows(): (t: Table)
      requires Valid()
      reads point_table
      ensures IsTable(t)
      ensures forall i | 0 <= i < MAX_NET32_NUMBER :: t[i] == Row(i)
    {
      seq(MAX_NET32_NUMBER, i requires 0 <= i < MAX_NET32_NUMBER && Valid() reads point_table => Row(i))
    }

    /** Takes the flag of a file if it is free. */
    method GetFileAccess(index: nat) returns (success: bool)
      requires Valid() && index < MAX_NET32_NUMBER
      modifies file_access
      ensures success == (old(file_access[index]) == 0)
      ensures file_access[..] == if success then old(file_access[..])[index := 1] else old(file_access[..])
    {
      if file_access[index] == 0 {
        file_access[index] := 1;
        return true;
      }
      return false;
    }

    /** Frees the flag of a file if it is taken. */
    method ReleaseFileAccess(index: nat) returns (success: bool)
      requires Valid() && index < MAX_NET32_NUMBER
      modifies file_access
      ensures success == (old(file_access[index]) == 1)
      ensures file_access[..] == if success then old(file_access[..])[index := 0] else old(file_access[..])
    {
      if file_access[index] == 1 {
        file_access[index] := 0;
        return true;
      }
      return false;
    }

    /** `fileStatusCheck`: where to go next with a file. */
    method CheckFileStatus(filename: string, index: nat, o: Outcomes) returns (status: Status)
      requires Valid() && index < MAX_NET32_NUMBER
      modifies file_access
      ensures status == if !Opens(Lookup(disk, filename), o) then FileCreate
                        else if old(file_access[index]) == 0 then FileRead else FileAccessFailed
      ensures file_access[..] == if status == FileRead then old(file_access[..])[index := 1] else old(file_access[..])
    {
      if !Opens(Lookup(disk, filename), o) {
        return FileCreate;
      }
      var success := GetFileAccess(index);
      return if success then FileRead else FileAccessFailed;
    }

    /** The state that writes a file from the table. */
    method CreateFile(filename: string, i: nat, o: Outcomes)
      requires Valid() && i < MAX_NET32_NUMBER
      modifies this`disk
      ensures disk == Update(old(disk), filename, Created(Lookup(old(disk), filename), Row(i), o))
    {
      if o.creatable {
        var cells: seq<real> := [];
        var j := 0;
        while j < MAX_POINT_NUMBER
          invariant 0 <= j <= MAX_POINT_NUMBER && cells == Row(i)[..j]
        {
          cells := cells + [point_table[i, j]];
          j := j + 1;
        }
        assert cells == Row(i);
        disk := disk[filename := cells];
      } else {
        UpdateLookup(disk, filename);
      }
    }

    /**
     The loop of the state that repairs a file in place: read a value, and where it differs
     seek back and write over it; at the end of the file, remove it.  The open file keeps its
     contents when its name is removed.
     */
    method RepairFile(filename: string, i: nat, o: Outcomes)
      requires Valid() && i < MAX_NET32_NUMBER && filename in disk
      modifies this`disk
      ensures disk == Update(old(disk), filename, Repaired(old(disk)[filename], Row(i), o))
    {
      ghost var row := Row(i);
      var cells := disk[filename];
      ghost var before := cells;
      var pos, linked := 0, true;
      var j := 0;
      while j < MAX_POINT_NUMBER
        invariant 0 <= j <= MAX_POINT_NUMBER
        invariant pos == (if j <= |before| then j else |before|) && cells == row[..pos] + before[pos..]
        invariant linked == !Removed(o, |before|, j)
        invariant disk == if linked then old(disk)[filename := cells] else old(disk) - {filename}
      {
        if pos < |cells| {
          Rewritten(row, before, pos);
          var value := cells[pos];
          pos := pos + 1;
          if point_table[i, j] != value {
            pos := pos - 1;
            cells := cells[pos := point_table[i, j]];
            pos := pos + 1;
            disk := disk[filename := cells];
          }
        } else if linked && o.removable(j) {
          disk := disk - {filename};
          linked := false;
        }
        j := j + 1;
      }
      assert row[..MAX_POINT_NUMBER] == row;
      if |before| < MAX_POINT_NUMBER {
        assert cells == row[..|before|];
      }
    }

    /** What holds on entering each state, relative to the store `s` after the first i files. */
    ghost predicate Arrived(status: Status, i: nat, s: Store, o: Outcomes)
      requires Valid() && IsStore(s) && i < MAX_NET32_NUMBER
      reads this, file_access, point_table
    {
      var f := Lookup(s.disk, FileName(i));
      var taken := Store(s.disk, s.flags[i := 1]);
      match status
      case GetFileName => Value() == s
      case FileStatusCheck => Value() == s
      case FileCreate =>
        (!Opens(f, o) && Value() == s) ||
        (Opens(f, o) && s.flags[i] == 0 && !o.writable && Value() == taken)
      case FileRead => Opens(f, o) && s.flags[i] == 0 && Value() == taken
      case FileAccessFailed => Opens(f, o) && s.flags[i] != 0 && Value() == s
      case IncreaseIndex => Value() == CheckFile(s, i, Row(i), o)
      case FinishFileCheckProcess => false
    }

    /** One transition of the machine within the visit of file `i`. */
    method Step(status: Status, i: nat, ghost s: Store, o: Outcomes) returns (next: Status)
      requires Valid() && IsStore(s) && i < MAX_NET32_NUMBER
      requires status != IncreaseIndex && Arrived(status, i, s, o)
      modifies this`disk, file_access
      ensures Arrived(next, i, s, o)
      ensures Rank(next) < Rank(status)
    {
      var filename := FileName(i);
      match status {
        case GetFileName =>
          next := FileStatusCheck;
        case FileStatusCheck =>
          next := CheckFileStatus(filename, i, o);
        case FileCreate =>
          CreateFile(filename, i, o);
          next := IncreaseIndex;
        case FileRead =>
          if o.writable {
            RepairFile(filename, i, o);
            var released := ReleaseFileAccess(i);
            next := IncreaseIndex;
          } else {
            next := FileCreate;
          }
        case FileAccessFailed =>
          UpdateLookup(disk, filename);
          next := IncreaseIndex;
      }
    }

    /**
     `file_check`: one run of the machine.  It ends for every outcome of the file system and
     the flags, and visits every PCM once, in order.
     */
    method FileCheck(env: nat -> Outcomes) returns (ghost visited: seq<nat>)
      requires Valid()
      modifies this`disk, file_access
      ensures Value() == Run(old(Value()), Rows(), env)
      ensures visited == seq(32, k => k)
    {
      hide CheckFile, FileName, Lookup, Opens, Row, Rows;
      ghost var s0, table := Value(), Rows();
      var i, status := 0, GetFileName;
      visited := [];
      while true
        invariant 0 <= i <= MAX_NET32_NUMBER && Rows() == table
        invariant status == FinishFileCheckProcess <==> i == MAX_NET32_NUMBER
        invariant i < MAX_NET32_NUMBER ==> Arrived(status, i, RunFirst(s0, table, env, i), env(i))
        invariant i == MAX_NET32_NUMBER ==> Value() == RunFirst(s0, table, env, i)
        invariant visited == seq(if status == GetFileName || i == MAX_NET32_NUMBER then i else i + 1, k => k)
        decreases MAX_NET32_NUMBER - i, Rank(status)
      {
        if status == FinishFileCheckProcess {
          return;
        }
        if status == IncreaseIndex {
          i := i + 1;
          status := if i < MAX_NET32_NUMBER then GetFileName else FinishFileCheckProcess;
        } else {
          if status == GetFileName {
            visited := visited + [i];
          }
          status := Step(status, i, RunFirst(s0, table, env, i), env(i));
        }
      }
    }
  }
}
