/**
 What runs of the observer achieve: the mirrors stabilise within two runs, flags come back
 unless the second open of a file fails, and a flag lost that way freezes its file.
 */
module MirrorRepair {
  import opened PointObserver

  ghost predicate Mirrors(f: File, row: seq<real>) {
    f.Present? && |f.cells| >= |row| && f.cells[..|row|] == row
  }

  ghost predicate AllFree(s: Store) {
    IsStore(s) && forall i | 0 <= i < MAX_NET32_NUMBER :: s.flags[i] == 0
  }

  function FileOf(s: Store, i: nat): File
    requires i < MAX_NET32_NUMBER
  {
    Lookup(s.disk, FileName(i))
  }

  // ---------------------------------------------------------------- one file at a time

  lemma LookupUpdate(disk: Disk, name: string, f: File, other: string)
    ensures Lookup(Update(disk, name, f), other) == if other == name then f else Lookup(disk, other)
  {
  }

  /** Visiting one file leaves all others and their flags alone. */
  lemma VisitFrame(s: Store, i: nat, row: seq<real>, o: Outcomes, j: nat)
    requires IsStore(s) && i < MAX_NET32_NUMBER && j < MAX_NET32_NUMBER
    ensures var r := CheckFile(s, i, row, o);
            && FileOf(r, j) == (if j == i then CheckedFile(FileOf(s, i), s.flags[i], row, o) else FileOf(s, j))
            && r.flags[j] == (if j == i then CheckedFlag(FileOf(s, i), s.flags[i], o) else s.flags[j])
  {
    hide FileName, Lookup, Update, CheckedFile, CheckedFlag;
    LookupUpdate(s.disk, FileName(i), CheckedFile(FileOf(s, i), s.flags[i], row, o), FileName(j));
    if FileName(i) == FileName(j) {
      NamesDistinct(i, j);
    }
  }

  /** The first k files of a run have had exactly their own visit, the rest none. */
  lemma {:induction false} RunFirstFile(s: Store, table: Table, env: nat -> Outcomes, k: nat, j: nat)
    requires IsStore(s) && IsTable(table) && k <= MAX_NET32_NUMBER && j < MAX_NET32_NUMBER
    ensures var r := RunFirst(s, table, env, k);
            && FileOf(r, j) == (if j < k then CheckedFile(FileOf(s, j), s.flags[j], table[j], env(j)) else FileOf(s, j))
            && r.flags[j] == (if j < k then CheckedFlag(FileOf(s, j), s.flags[j], env(j)) else s.flags[j])
  {
    hide CheckFile, FileOf, CheckedFile, CheckedFlag;
    if k > 0 {
      RunFirstFile(s, table, env, k - 1, j);
      RunFirstFile(s, table, env, k - 1, k - 1);
      VisitFrame(RunFirst(s, table, env, k - 1), k - 1, table[k - 1], env(k - 1), j);
    }
  }

  /** A run treats every file on its own: its outcome depends on that file, flag and row alone. */
  lemma RunFile(s: Store, table: Table, env: nat -> Outcomes, j: nat)
    requires IsStore(s) && IsTable(table) && j < MAX_NET32_NUMBER
    ensures FileOf(Run(s, table, env), j) == CheckedFile(FileOf(s, j), s.flags[j], table[j], env(j))
    ensures Run(s, table, env).flags[j] == CheckedFlag(FileOf(s, j), s.flags[j], env(j))
  {
    hide RunFirst, FileOf, CheckedFile, CheckedFlag;
    RunFirstFile(s, table, env, MAX_NET32_NUMBER, j);
  }

  /** A run touches no other file. */
  lemma {:induction false} RunFirstOthers(s: Store, table: Table, env: nat -> Outcomes, k: nat, name: string)
    requires IsStore(s) && IsTable(table) && k <= MAX_NET32_NUMBER
    requires forall i | 0 <= i < MAX_NET32_NUMBER :: name != FileName(i)
    ensures Lookup(RunFirst(s, table, env, k).disk, name) == Lookup(s.disk, name)
  {
    hide FileName, Lookup, Update, CheckedFile;
    if k > 0 {
      RunFirstOthers(s, table, env, k - 1, name);
      var r := RunFirst(s, table, env, k - 1);
      LookupUpdate(r.disk, FileName(k - 1),
                   CheckedFile(FileOf(r, k - 1), r.flags[k - 1], table[k - 1], env(k - 1)), name);
    }
  }

  /**
   What one run makes of a file, value by value, for every disk, flag and outcome:
   a file that cannot be read is written anew whatever its flag says; one that can be read is
   left alone while its flag is taken, and written anew when the second open fails; otherwise
   its first 256 values become the row and the rest stays, and a file shorter than that is gone
   if one of the removals tried at its end succeeds.
   */
  lemma RunOutcome(s: Store, table: Table, env: nat -> Outcomes, j: nat)
    requires IsStore(s) && IsTable(table) && j < 32
    ensures var f, r, o, row := FileOf(s, j), FileOf(Run(s, table, env), j), env(j), table[j];
            && (f.Missing? || !o.readable ==> r == if o.creatable then Present(row) else f)
            && (f.Present? && o.readable && s.flags[j] != 0 ==> r == f)
            && (f.Present? && o.readable && s.flags[j] == 0 && !o.writable ==>
                r == if o.creatable then Present(row) else f)
            && (f.Present? && o.readable && s.flags[j] == 0 && o.writable ==>
                if |f.cells| < 256 && exists k :: |f.cells| <= k < 256 && o.removable(k) then r.Missing?
                else
                  && r.Present? && |r.cells| == |f.cells|
                  && forall k | 0 <= k < |r.cells| :: r.cells[k] == if k < 256 then row[k] else f.cells[k])
  {
    hide Run, FileOf;
    RunFile(s, table, env, j);
  }

  // ---------------------------------------------------------------- self-stabilisation

  function Succeed(): nat -> Outcomes {
    _ => ALL_SUCCEED
  }

  lemma FreeFileResult(f: File, row: seq<real>)
    ensures CheckedFlag(f, 0, ALL_SUCCEED) == 0
    ensures Mirrors(CheckedFile(f, 0, row, ALL_SUCCEED), row) <==> f.Missing? || |f.cells| >= |row|
    ensures f.Present? && |f.cells| < |row| ==> CheckedFile(f, 0, row, ALL_SUCCEED) == Missing
  {
    if f.Present? && |f.cells| < |row| {
      assert ALL_SUCCEED.removable(|f.cells|);
    }
  }

  lemma FlagsStayFree(s: Store, table: Table)
    requires AllFree(s) && IsTable(table)
    ensures AllFree(Run(s, table, Succeed()))
  {
    forall j | 0 <= j < MAX_NET32_NUMBER
      ensures Run(s, table, Succeed()).flags[j] == 0
    {
      RunFile(s, table, Succeed(), j);
    }
  }

  /** One run mirrors a file exactly when it was missing or long enough: short files are removed first. */
  lemma OneRunMirrorsIff(s: Store, table: Table, j: nat)
    requires AllFree(s) && IsTable(table) && j < MAX_NET32_NUMBER
    ensures Mirrors(FileOf(Run(s, table, Succeed()), j), table[j]) <==>
            FileOf(s, j).Missing? || |FileOf(s, j).cells| >= 256
  {
    hide Run, FileOf;
    RunFile(s, table, Succeed(), j);
    FreeFileResult(FileOf(s, j), table[j]);
  }

  /**
   Self-stabilisation: from any files on disk, with all flags free and the file system willing,
   two runs leave every file mirroring its row as of the second run, and all flags free.
   */
  lemma TwoRunsMirror(s: Store, first: Table, second: Table, j: nat)
    requires AllFree(s) && IsTable(first) && IsTable(second) && j < MAX_NET32_NUMBER
    ensures var r := Run(Run(s, first, Succeed()), second, Succeed());
            Mirrors(FileOf(r, j), second[j]) && AllFree(r)
  {
    hide Run, FileOf;
    var r1 := Run(s, first, Succeed());
    FlagsStayFree(s, first);
    FlagsStayFree(r1, second);
    OneRunMirrorsIff(s, first, j);
    OneRunMirrorsIff(r1, second, j);
    RunFile(s, first, Succeed(), j);
    FreeFileResult(FileOf(s, j), first[j]);
  }

  /**
   The same for the file whose name spells the number of the PCM: the first 256 values on disk
   are those of the table.
   */
  lemma TwoRunsMirrorByName(s: Store, first: Table, second: Table, tens: char, ones: char)
    requires |s.flags| == 32 && forall i | 0 <= i < 32 :: s.flags[i] == 0
    requires IsTable(first) && IsTable(second)
    requires '0' <= tens <= '9' && '0' <= ones <= '9'
    requires 10 * (tens as int - '0' as int) + (ones as int - '0' as int) < 32
    ensures var pcm := 10 * (tens as int - '0' as int) + (ones as int - '0' as int);
            var name := "/duksan/DATA/point" + [tens, ones] + ".dat";
            var r := Run(Run(s, first, Succeed()), second, Succeed());
            && name in r.disk && |r.disk[name]| >= 256 && r.flags[pcm] == 0
            && forall k | 0 <= k < 256 :: r.disk[name][k] == second[pcm][k]
  {
    hide Run, FileName;
    var pcm := 10 * (tens as int - '0' as int) + (ones as int - '0' as int);
    NameOfDigits(pcm, tens, ones);
    TwoRunsMirror(s, first, second, pcm);
    var cells := Run(Run(s, first, Succeed()), second, Succeed()).disk[FileName(pcm)];
    MirrorsCells(cells, second[pcm]);
  }

  lemma MirrorsCells(cells: seq<real>, row: seq<real>)
    requires Mirrors(Present(cells), row)
    ensures forall k | 0 <= k < |row| :: cells[k] == row[k]
  {
    assert forall k | 0 <= k < |row| :: cells[k] == cells[..|row|][k];
  }

  /** Once a file mirrors its row, further runs leave it exactly as it is. */
  lemma MirroredFileIsStable(s: Store, table: Table, j: nat)
    requires AllFree(s) && IsTable(table) && j < MAX_NET32_NUMBER
    requires Mirrors(FileOf(s, j), table[j])
    ensures FileOf(Run(s, table, Succeed()), j) == FileOf(s, j)
  {
    hide Run, FileOf;
    RunFile(s, table, Succeed(), j);
    MirroredResult(FileOf(s, j), table[j]);
  }

  lemma MirroredResult(f: File, row: seq<real>)
    requires Mirrors(f, row)
    ensures CheckedFile(f, 0, row, ALL_SUCCEED) == f
  {
    assert f.cells == f.cells[..|row|] + f.cells[|row|..];
  }

  // ---------------------------------------------------------------- flags

  /** A run changes a flag exactly when it takes a free one and the second open then fails. */
  lemma FlagLostIff(s: Store, table: Table, env: nat -> Outcomes, j: nat)
    requires IsStore(s) && IsTable(table) && j < MAX_NET32_NUMBER
    ensures Run(s, table, env).flags[j] != s.flags[j] <==>
            FileOf(s, j).Present? && env(j).readable && s.flags[j] == 0 && !env(j).writable
    ensures Run(s, table, env).flags[j] != s.flags[j] ==> Run(s, table, env).flags[j] == 1
  {
    hide Run, FileOf;
    RunFile(s, table, env, j);
  }

  /** The store after a sequence of runs, each with its own table and outcomes. */
  ghost function Runs(s: Store, tables: seq<Table>, envs: seq<nat -> Outcomes>): (r: Store)
    requires IsStore(s) && |tables| == |envs| && forall k | 0 <= k < |tables| :: IsTable(tables[k])
    ensures IsStore(r)
  {
    if |tables| == 0 then s
    else
      var n := |tables| - 1;
      Run(Runs(s, tables[..n], envs[..n]), tables[n], envs[n])
  }

  /**
   A lost flag never comes back: a flag that is not free when a run starts keeps its value
   through any number of runs, whatever is on disk and whatever the file system lets through.
   */
  lemma {:induction false} LostFlagStaysLost(s: Store, tables: seq<Table>, envs: seq<nat -> Outcomes>, j: nat)
    requires IsStore(s) && |tables| == |envs| && forall k | 0 <= k < |tables| :: IsTable(tables[k])
    requires j < MAX_NET32_NUMBER && s.flags[j] != 0
    ensures Runs(s, tables, envs).flags[j] == s.flags[j]
  {
    hide Run, FileOf;
    if |tables| > 0 {
      var n := |tables| - 1;
      LostFlagStaysLost(s, tables[..n], envs[..n], j);
      RunFile(Runs(s, tables[..n], envs[..n]), tables[n], envs[n], j);
    }
  }

  /**
   A file whose flag is taken and never given back keeps its contents through any number of
   runs, however the table changes, as long as it can be read.
   */
  lemma {:induction false} TakenFlagFreezesFile(s: Store, tables: seq<Table>, envs: seq<nat -> Outcomes>, j: nat)
    requires IsStore(s) && |tables| == |envs| && forall k | 0 <= k < |tables| :: IsTable(tables[k])
    requires j < MAX_NET32_NUMBER && s.flags[j] != 0 && FileOf(s, j).Present?
    requires forall k | 0 <= k < |envs| :: envs[k](j).readable
    ensures FileOf(Runs(s, tables, envs), j) == FileOf(s, j)
  {
    hide Run, FileOf;
    if |tables| > 0 {
      var n := |tables| - 1;
      TakenFlagFreezesFile(s, tables[..n], envs[..n], j);
      LostFlagStaysLost(s, tables[..n], envs[..n], j);
      RunFile(Runs(s, tables[..n], envs[..n]), tables[n], envs[n], j);
    }
  }
}
