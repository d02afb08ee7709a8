/** `TC_RollBySize::roll`: a log file that is renamed to numbered files when it has grown too large. */
module RollBySizes {

  /** `xxx.log`, and `xxxk.log` for a number `k`. */
  datatype Name = Base | Numbered(k: int)

  type Disk = map<Name, string>

  /** The file of index `i`: the base file comes first. */
  function File(i: int): Name {
    if i == 0 then Base else Numbered(i)
  }

  /** The index of a file, -1 for a name that no index has. */
  function Index(f: Name): int {
    match f
    case Base => 0
    case Numbered(k) => if k >= 1 then k else -1
  }

  lemma IndexOf(i: nat)
    ensures Index(File(i)) == i
    ensures forall f :: Index(f) == i ==> f == File(i)
  {
  }

  function Content(disk: Disk, f: Name): string {
    if f in disk then disk[f] else ""
  }

  /** Append to a file, which comes into being if need be. */
  function Append(disk: Disk, f: Name, s: string): Disk {
    disk[f := Content(disk, f) + s]
  }

  function Rename(disk: Disk, from: Name, to: Name): Disk
    requires from in disk
  {
    (disk - {from})[to := disk[from]]
  }

  /** The files of the indices below `n` from the highest down to the base file, one after the other. */
  function Joined(disk: Disk, n: nat): string {
    if n == 0 then "" else Content(disk, File(n - 1)) + Joined(disk, n - 1)
  }

  /** The disk holds exactly the files of the indices below `n`. */
  ghost predicate Holds(disk: Disk, n: nat) {
    forall f :: f in disk <==> 0 <= Index(f) < n
  }

  lemma {:induction false} HoldsCount(disk: Disk, n: nat)
    requires Holds(disk, n)
    ensures |disk| == n
  {
    if n == 0 {
      assert forall f :: f !in disk;
      assert disk.Keys == {};
    } else {
      var f := File(n - 1);
      IndexOf(n - 1);
      var rest := disk - {f};
      assert Holds(rest, n - 1) by {
        forall g ensures g in rest <==> 0 <= Index(g) < n - 1 {
          assert Index(g) == n - 1 ==> g == f;
        }
      }
      HoldsCount(rest, n - 1);
      assert disk.Keys == rest.Keys + {f};
    }
  }

  lemma {:induction false} JoinedSame(disk: Disk, disk': Disk, n: nat)
    requires forall i :: 0 <= i < n ==> Content(disk, File(i)) == Content(disk', File(i))
    ensures Joined(disk, n) == Joined(disk', n)
  {
    if n > 0 {
      JoinedSame(disk, disk', n - 1);
    }
  }

  /** What is appended to the base file comes at the end. */
  lemma {:induction false} JoinedAppend(disk: Disk, n: nat, s: string)
    requires n > 0
    ensures Joined(Append(disk, Base, s), n) == Joined(disk, n) + s
  {
    var disk' := Append(disk, Base, s);
    if n == 1 {
      assert Joined(disk, 0) == "" == Joined(disk', 0);
      assert Content(disk, Base) + s == Content(disk, Base) + "" + s;
    } else {
      JoinedAppend(disk, n - 1, s);
      var c := Content(disk, File(n - 1));
      assert c + (Joined(disk, n - 1) + s) == c + Joined(disk, n - 1) + s;
    }
  }

  /** Shifting every file up by one beside an empty base file leaves the whole as it is. */
  lemma {:induction false} JoinedShift(disk: Disk, disk': Disk, n: nat)
    requires forall i :: 1 <= i <= n ==> Content(disk', File(i)) == Content(disk, File(i - 1))
    requires Content(disk', Base) == ""
    ensures Joined(disk', n + 1) == Joined(disk, n)
  {
    if n > 0 {
      JoinedShift(disk, disk', n - 1);
    }
  }

  /** The last file is the first to be read. */
  lemma JoinedLast(disk: Disk, n: nat)
    requires n > 0
    ensures Joined(disk, n) == Content(disk, File(n - 1)) + Joined(disk - {File(n - 1)}, n - 1)
  {
    var disk' := disk - {File(n - 1)};
    forall i | 0 <= i < n - 1 ensures Content(disk, File(i)) == Content(disk', File(i)) {
      IndexOf(i);
      IndexOf(n - 1);
    }
    JoinedSame(disk, disk', n - 1);
  }

  /** The index that the file `f` had before the renaming loop got down to index `i`. */
  function Origin(f: Name, i: int): int {
    if Index(f) < i then Index(f) else Index(f) - 1
  }

  /** The renaming loop has done the indices from `i` up; `m` files are to be shifted by one. */
  ghost predicate Shifting(start: Disk, disk: Disk, m: nat, i: int) {
    forall f ::
      && (f in disk <==> 0 <= Origin(f, i) < m && Index(f) != i)
      && (f in disk ==> disk[f] == Content(start, File(Origin(f, i))))
  }

  lemma ShiftingStart(start: Disk, m: nat, i: nat)
    requires Holds(start, m) && m <= i
    ensures Shifting(start, start, m, i)
  {
    forall f
      ensures f in start <==> 0 <= Origin(f, i) < m && Index(f) != i
      ensures f in start ==> start[f] == Content(start, File(Origin(f, i)))
    {
      if Index(f) >= 0 {
        IndexOf(Index(f));
      }
    }
  }

  lemma ShiftingStep(start: Disk, disk: Disk, m: nat, i: nat)
    requires Shifting(start, disk, m, i + 1)
    ensures File(i) in disk <==> i < m
    ensures Shifting(start, if i < m then Rename(disk, File(i), File(i + 1)) else disk, m, i)
  {
    hide File, Content;
    IndexOf(i);
    IndexOf(i + 1);
    assert Origin(File(i), i + 1) == i && Origin(File(i + 1), i) == i;
    var disk' := if i < m then Rename(disk, File(i), File(i + 1)) else disk;
    forall f
      ensures f in disk' <==> 0 <= Origin(f, i) < m && Index(f) != i
      ensures f in disk' ==> disk'[f] == Content(start, File(Origin(f, i)))
    {
      if Index(f) != i && Index(f) != i + 1 {
        assert Origin(f, i) == Origin(f, i + 1);
      }
    }
  }

  /** After the loop an empty base file completes the shift: the files joined are what they were. */
  lemma ShiftingDone(start: Disk, disk: Disk, m: nat)
    requires Shifting(start, disk, m, 0)
    ensures Holds(Append(disk, Base, ""), m + 1) && Append(disk, Base, "")[Base] == ""
    ensures Joined(Append(disk, Base, ""), m + 1) == Joined(start, m)
    ensures forall i :: 1 <= i <= m ==> Content(Append(disk, Base, ""), File(i)) == Content(start, File(i - 1))
  {
    hide Joined;
    var disk' := Append(disk, Base, "");
    assert Base !in disk && disk'[Base] == "" + "";
    forall f ensures f in disk' <==> 0 <= Index(f) < m + 1 {
      IndexOf(0);
    }
    forall i | 1 <= i <= m ensures Content(disk', File(i)) == Content(start, File(i - 1)) {
      IndexOf(i);
      assert Origin(File(i), 0) == i - 1;
    }
    JoinedShift(start, disk', m);
  }

  /** Writing to the base file. */
  lemma WritingKeeps(disk: Disk, n: nat, data: string)
    requires Holds(disk, n)
    ensures var n' := if n == 0 then 1 else n;
      Holds(Append(disk, Base, data), n') && Joined(Append(disk, Base, data), n') == Joined(disk, n) + data
  {
    if n == 0 {
      HoldsFirst(disk, data);
    } else {
      HoldsMore(disk, n, data);
      JoinedAppend(disk, n, data);
    }
  }

  lemma HoldsFirst(disk: Disk, s: string)
    requires Holds(disk, 0)
    ensures Holds(Append(disk, Base, s), 1) && Joined(Append(disk, Base, s), 1) == s
  {
    assert Base !in disk;
    IndexOf(0);
    assert Joined(Append(disk, Base, s), 0) == "";
    assert "" + s + "" == s;
  }

  lemma HoldsMore(disk: Disk, n: nat, s: string)
    requires Holds(disk, n) && n > 0
    ensures Holds(Append(disk, Base, s), n)
  {
  }

  /** Deleting the file of the highest index allowed, which exists only when the number of files is exhausted. */
  lemma RemoveLast(disk: Disk, n: nat, maxNum: nat)
    requires Holds(disk, n) && n <= maxNum && maxNum >= 2
    ensures var f := Numbered(maxNum - 1);
      && (f in disk <==> n == maxNum)
      && Holds(disk - {f}, if n == maxNum then n - 1 else n)
      && Joined(disk, n) == (if f in disk then disk[f] else "") + Joined(disk - {f}, if n == maxNum then n - 1 else n)
  {
    var f := Numbered(maxNum - 1);
    IndexOf(maxNum - 1);
    if n == maxNum {
      JoinedLast(disk, n);
    } else {
      assert disk - {f} == disk;
    }
  }

  // ---------- one call on values ----------

  /** The renaming loop from index `i` down. */
  function Shifted(disk: Disk, i: int): Disk
    decreases i
  {
    if i < 0 then disk else
    Shifted(if File(i) in disk then Rename(disk, File(i), File(i + 1)) else disk, i - 1)
  }

  /** The file opened after the loop: the base file, unless the loop does not start. */
  function Reopened(maxNum: int): Name {
    if maxNum >= 2 then Base else Numbered(maxNum - 1)
  }

  /** The file of the highest index goes, all others move up, a file is opened. */
  function Rotated(disk: Disk, maxNum: int): Disk {
    Append(Shifted(disk - {Numbered(maxNum - 1)}, maxNum - 2), Reopened(maxNum), "")
  }

  /** What `roll` works on, and everything written so far. */
  datatype Log = Log(lt: int, open: bool, current: Name, disk: Disk, written: string)

  /** One call of `roll`. */
  function Rolled(s: Log, now: int, data: string, maxSize: int, maxNum: int): Log {
    var late := now - s.lt > 5 || now < s.lt;
    var file := if late || !s.open then Base else s.current;
    var disk := Append(s.disk, file, data);
    var s' := Log(if late then now else s.lt, true, file, disk, s.written + data);
    if now - s.lt <= 5 || |disk[file]| < maxSize then s'
    else s'.(current := Reopened(maxNum), disk := Rotated(disk, maxNum))
  }

  /** There are `n` files, no more than allowed, and they are what is left of everything written. */
  ghost predicate Good(s: Log, maxNum: int, n: nat, dropped: string) {
    && Holds(s.disk, n) && n <= maxNum
    && s.written == dropped + Joined(s.disk, n)
    && (s.open ==> s.current == Base && Base in s.disk)
  }

  lemma {:induction false} ShiftedShifts(start: Disk, disk: Disk, m: nat, i: int)
    requires i >= -1 && Shifting(start, disk, m, i + 1)
    ensures Shifting(start, Shifted(disk, i), m, 0)
    decreases i
  {
    hide Shifting;
    if i >= 0 {
      ShiftingStep(start, disk, m, i);
      ShiftedShifts(start, if i < m then Rename(disk, File(i), File(i + 1)) else disk, m, i - 1);
    }
  }

  /** A rotation with at least two files allowed. */
  lemma RotatingKeeps(disk: Disk, n: nat, maxNum: nat)
    requires Holds(disk, n) && n <= maxNum && maxNum >= 2
    ensures var disk' := Rotated(disk, maxNum);
      var n' := if n == maxNum then n else n + 1;
      && Holds(disk', n') && Base in disk' && disk'[Base] == ""
      && (forall i :: 1 <= i < n' ==> Content(disk', File(i)) == Content(disk, File(i - 1)))
      && Joined(disk, n) == (if n == maxNum then Content(disk, File(maxNum - 1)) else "") + Joined(disk', n')
  {
    hide Holds, Joined, Shifting, Shifted;
    var name := Numbered(maxNum - 1);
    var rest, left := disk - {name}, if n == maxNum then n - 1 else n;
    RemoveLast(disk, n, maxNum);
    ShiftingStart(rest, left, maxNum - 1);
    ShiftedShifts(rest, rest, left, maxNum - 2);
    ShiftingDone(rest, Shifted(rest, maxNum - 2), left);
  }

  /** With a limit of at most one file nothing moves: the reopened file is emptied. */
  lemma RotatingFew(disk: Disk, maxNum: int)
    requires maxNum <= 1
    ensures Rotated(disk, maxNum) == disk[Numbered(maxNum - 1) := ""]
  {
    assert "" + "" == "";
  }

  /** With at least two files allowed every call keeps the files a suffix of everything written. */
  lemma RolledKeeps(s: Log, now: int, data: string, maxSize: int, maxNum: nat, n: nat, dropped: string)
    returns (n': nat, dropped': string)
    requires maxNum >= 2 && Good(s, maxNum, n, dropped)
    ensures var s' := Rolled(s, now, data, maxSize, maxNum);
      var base := Append(s.disk, Base, data);
      && Good(s', maxNum, n', dropped') && s'.current == Base
      && if now - s.lt > 5 && |base[Base]| >= maxSize then
           && s'.disk[Base] == ""
           && (forall i :: 1 <= i < n' ==> Content(s'.disk, File(i)) == Content(base, File(i - 1)))
           && n' == (if n == maxNum then maxNum else if n == 0 then 2 else n + 1)
           && dropped' == dropped + if n == maxNum then Content(s.disk, File(maxNum - 1)) else ""
         else
           s'.disk == base && dropped' == dropped && n' == if n == 0 then 1 else n
  {
    hide Holds, Joined, Rotated;
    var base := Append(s.disk, Base, data);
    WritingKeeps(s.disk, n, data);
    n', dropped' := if n == 0 then 1 else n, dropped;
    assert dropped + (Joined(s.disk, n) + data) == dropped + Joined(s.disk, n) + data;
    if now - s.lt > 5 && |base[Base]| >= maxSize {
      RotatingKeeps(base, n', maxNum);
      var last := if n == maxNum then Content(base, File(maxNum - 1)) else "";
      var n1 := if n' == maxNum then n' else n' + 1;
      var joined := Joined(Rotated(base, maxNum), n1);
      assert dropped + (last + joined) == dropped + last + joined;
      n', dropped' := n1, dropped + last;
    }
  }

  class RollBySize {
    const path: string
    const maxSize: int
    const maxNum: int
    var lt: int
    var open: bool
    var current: Name
    var disk: Disk
    var console: string

    /** How many files there are, everything ever written to them, and the part already deleted. */
    ghost var count: nat
    ghost var written: string
    ghost var dropped: string

    ghost function State(): Log
      reads this
    {
      Log(lt, open, current, disk, written)
    }

    /** With at least two files allowed, the files are a suffix of everything written. */
    ghost predicate Valid()
      reads this
    {
      maxNum >= 2 ==> Good(State(), maxNum, count, dropped)
    }

    /** `init`, with log files possibly left over from before. */
    constructor (path: string, maxSize: int, maxNum: int, now: int, disk: Disk, ghost count: nat)
      requires Holds(disk, count) && (maxNum >= 2 ==> count <= maxNum)
      ensures Valid() && this.path == path && this.maxSize == maxSize && this.maxNum == maxNum
      ensures State() == Log(now, false, Base, disk, Joined(disk, count)) && dropped == ""
    {
      this.path, this.maxSize, this.maxNum := path, maxSize, maxNum;
      this.lt, this.open, this.current := now, false, Base;
      this.disk, this.console := disk, "";
      this.count, this.written, this.dropped := count, Joined(disk, count), "";
    }

    /** There are never more files than allowed. */
    lemma FilesBounded()
      requires Valid() && maxNum >= 2
      ensures |disk| <= maxNum
    {
      HoldsCount(disk, count);
    }

    /** `roll` at time `now`; `data` is the buffer's text.  All file operations succeed. */
    method Roll(now: int, data: string)
      requires Valid()
      modifies this
      ensures Valid()
      ensures path == "" ==> console == old(console) + data && State() == old(State())
      ensures path != "" ==> console == old(console) && State() == Rolled(old(State()), now, data, maxSize, maxNum)
      ensures path != "" ==> open && lt == if 0 <= now - old(lt) <= 5 then old(lt) else now
      ensures path != "" && maxNum >= 2 ==>
        var base := Append(old(disk), Base, data);
        if now - old(lt) > 5 && |base[Base]| >= maxSize then
          && disk[Base] == ""
          && (forall i :: 1 <= i < count ==> Content(disk, File(i)) == Content(base, File(i - 1)))
          && count == (if old(count) == maxNum then maxNum else if old(count) == 0 then 2 else old(count) + 1)
          && dropped == old(dropped) + if old(count) == maxNum then Content(old(disk), File(maxNum - 1)) else ""
        else
          disk == base && dropped == old(dropped)
      ensures maxNum <= 1 ==> Content(old(disk), Base) <= Content(disk, Base)
      ensures path != "" && maxNum <= 1 ==>
        var file := if now - old(lt) > 5 || now < old(lt) || !old(open) then Base else old(current);
        var log := Append(old(disk), file, data);
        if now - old(lt) > 5 && |log[file]| >= maxSize then
          disk == log[Numbered(maxNum - 1) := ""] && current == Numbered(maxNum - 1)
        else
          disk == log && current == file
    {
      hide Good, Rotated;
      if path == "" {
        console := console + data;
        return;
      }
      ghost var s := State();
      RollFile(now, data);
      if maxNum >= 2 {
        count, dropped := RolledKeeps(s, now, data, maxSize, maxNum, count, dropped);
      } else {
        var file := if now - s.lt > 5 || now < s.lt || !s.open then Base else s.current;
        RotatingFew(Append(s.disk, file, data), maxNum);
      }
    }

    /** `roll` when there is a path. */
    method RollFile(now: int, data: string)
      modifies `lt, `open, `current, `disk, `written
      ensures State() == Rolled(old(State()), now, data, maxSize, maxNum)
    {
      hide Rotated;
      var tt := now - lt;
      if tt > 5 || tt < 0 {
        lt := now;
        open := false;
      }
      OpenAndWrite(data);
      if tt <= 5 {
        return;
      }
      if |Content(disk, current)| < maxSize {
        return;
      }
      Rotate();
    }

    /** The base file is opened for appending unless a file is open; then the text is written. */
    method OpenAndWrite(data: string)
      modifies `open, `current, `disk, `written
      ensures open && written == old(written) + data
      ensures current == (if old(open) then old(current) else Base)
      ensures disk == Append(old(disk), current, data)
    {
      if !open {
        current := Base;
        open := true;
        disk := Append(disk, current, "");
      }
      disk := Append(disk, current, data);
      written := written + data;
      AppendTwice(old(disk), current, "", data);
    }

    /** The last part of `roll`: the file of the highest index goes, all others move up, and a file is opened. */
    method Rotate()
      modifies `disk, `current
      ensures current == Reopened(maxNum) && disk == Rotated(old(disk), maxNum)
    {
      var name := Numbered(maxNum - 1);
      if name in disk {
        disk := disk - {name};
      }
      ghost var start := disk;
      assert start == old(disk) - {name};
      var i := maxNum - 2;
      while i >= 0
        invariant maxNum <= 1 ==> i < 0 && name == Numbered(maxNum - 1)
        invariant maxNum >= 2 ==> -1 <= i <= maxNum - 2 && (i == -1 ==> name == Base)
        invariant Shifted(disk, i) == Shifted(start, maxNum - 2)
      {
        name := File(i);
        if name in disk {
          disk := Rename(disk, name, Numbered(i + 1));
        }
        i := i - 1;
      }
      current := name;
      disk := Append(disk, name, "");
    }
  }

  lemma AppendTwice(disk: Disk, f: Name, a: string, b: string)
    ensures Append(Append(disk, f, a), f, b) == Append(disk, f, a + b) && "" + b == b
  {
    assert Content(disk, f) + a + b == Content(disk, f) + (a + b);
  }

  // ---------- whole runs ----------

  datatype Call = Call(now: int, data: string)

  function New(start: int): Log {
    Log(start, false, Base, map[], "")
  }

  /** A log after a run of calls of `roll`. */
  function Run(s: Log, calls: seq<Call>, maxSize: int, maxNum: int): Log {
    if calls == [] then s else
    var last := calls[|calls| - 1];
    Rolled(Run(s, calls[..|calls| - 1], maxSize, maxNum), last.now, last.data, maxSize, maxNum)
  }

  /** A new object that goes through the calls is in that state. */
  method Play(path: string, maxSize: int, maxNum: int, start: int, calls: seq<Call>) returns (log: RollBySize)
    requires path != ""
    ensures fresh(log) && log.Valid() && log.State() == Run(New(start), calls, maxSize, maxNum)
  {
    hide Rolled;
    HoldsNone();
    log := new RollBySize(path, maxSize, maxNum, start, map[], 0);
    var k := 0;
    assert calls[..0] == [];
    while k < |calls|
      invariant 0 <= k <= |calls| && fresh(log) && log.Valid()
      invariant log.path == path && log.maxSize == maxSize && log.maxNum == maxNum
      invariant log.State() == Run(New(start), calls[..k], maxSize, maxNum)
    {
      assert calls[..k + 1][..k] == calls[..k];
      log.Roll(calls[k].now, calls[k].data);
      k := k + 1;
    }
    assert calls[..k] == calls;
  }

  lemma HoldsNone()
    ensures Holds(map[], 0)
  {
  }

  /** All files of the disk, from the highest number down to the base file. */
  ghost predicate Lists(disk: Disk, fs: seq<Name>) {
    && (forall f :: f in disk <==> f in fs)
    && (forall j, k :: 0 <= j < k < |fs| ==> Above(fs[j], fs[k]))
  }

  predicate Above(f: Name, g: Name) {
    f.Numbered? && (g.Numbered? ==> f.k > g.k)
  }

  /** The contents of the files, one after the other. */
  function Contents(disk: Disk, fs: seq<Name>): string {
    if fs == [] then "" else Content(disk, fs[0]) + Contents(disk, fs[1..])
  }

  /** The files joined in that order are the last part of everything written. */
  ghost predicate KeepsSuffix(s: Log) {
    exists fs, dropped :: Lists(s.disk, fs) && s.written == dropped + Contents(s.disk, fs)
  }

  function Files(n: nat): (fs: seq<Name>)
    ensures |fs| == n
    ensures forall k :: 0 <= k < n ==> fs[k] == File(n - 1 - k)
  {
    if n == 0 then [] else [File(n - 1)] + Files(n - 1)
  }

  lemma {:induction false} ContentsOfFiles(disk: Disk, n: nat)
    ensures Contents(disk, Files(n)) == Joined(disk, n)
  {
    if n > 0 {
      ContentsOfFiles(disk, n - 1);
      assert Files(n)[1..] == Files(n - 1);
    }
  }

  lemma FilesList(disk: Disk, n: nat)
    requires Holds(disk, n)
    ensures Lists(disk, Files(n))
  {
    var fs := Files(n);
    forall f ensures f in disk <==> f in fs {
      if f in disk {
        IndexOf(Index(f));
        assert fs[n - 1 - Index(f)] == f;
      }
      if f in fs {
        var k :| 0 <= k < n && fs[k] == f;
        IndexOf(n - 1 - k);
      }
    }
  }

  /** With at least two files allowed, whatever files were left over and whatever is written. */
  lemma {:induction false} RunKeeps(s: Log, calls: seq<Call>, maxSize: int, maxNum: nat, n: nat, dropped: string)
    returns (n': nat, dropped': string)
    requires maxNum >= 2 && Good(s, maxNum, n, dropped)
    ensures Good(Run(s, calls, maxSize, maxNum), maxNum, n', dropped')
  {
    hide Good, Rolled;
    if calls == [] {
      n', dropped' := n, dropped;
    } else {
      var init, last := calls[..|calls| - 1], calls[|calls| - 1];
      n', dropped' := RunKeeps(s, init, maxSize, maxNum, n, dropped);
      n', dropped' := RolledKeeps(Run(s, init, maxSize, maxNum), last.now, last.data, maxSize, maxNum, n', dropped');
    }
  }

  /** So the files are a suffix of everything written, and there are no more than allowed. */
  lemma RunKeepsSuffix(s: Log, calls: seq<Call>, maxSize: int, maxNum: nat, n: nat, dropped: string)
    requires maxNum >= 2 && Good(s, maxNum, n, dropped)
    ensures var s' := Run(s, calls, maxSize, maxNum);
      KeepsSuffix(s') && |s'.disk| <= maxNum
  {
    hide Run, Holds, Joined, Lists, Contents, Files;
    var s' := Run(s, calls, maxSize, maxNum);
    var n', dropped' := RunKeeps(s, calls, maxSize, maxNum, n, dropped);
    HoldsCount(s'.disk, n');
    FilesList(s'.disk, n');
    ContentsOfFiles(s'.disk, n');
  }

  /** A text that reaches the size limit. */
  function Full(maxSize: int): (a: string)
    ensures |a| >= 1 && |a| >= maxSize
    ensures forall k :: 0 <= k < |a| ==> a[k] == 'a'
  {
    seq(if maxSize > 1 then maxSize else 1, _ => 'a')
  }

  /**
   With a limit of at most one file the base file keeps growing, what is written in between goes to
   another file, and the next rotation deletes that: here "b" is lost.
   */
  lemma TextLost(start: int, maxSize: int, maxNum: int) returns (calls: seq<Call>)
    requires maxNum <= 1
    ensures var s := Run(New(start), calls, maxSize, maxNum);
      && s.written == Full(maxSize) + "b" + "c"
      && s.disk == map[Base := Full(maxSize) + "c", Numbered(maxNum - 1) := ""]
      && !KeepsSuffix(s) && |s.disk| == 2 > maxNum
  {
    hide Run, Rolled, Full, KeepsSuffix;
    var a := Full(maxSize);
    FirstRolled(start, maxSize, maxNum);
    RunMore(New(start), [], Call(start + 10, a), maxSize, maxNum);
    calls := [] + [Call(start + 10, a)];
    SecondRolled(Run(New(start), calls, maxSize, maxNum), start, maxSize, maxNum);
    RunMore(New(start), calls, Call(start + 11, "b"), maxSize, maxNum);
    calls := calls + [Call(start + 11, "b")];
    ThirdRolled(Run(New(start), calls, maxSize, maxNum), start, maxSize, maxNum);
    RunMore(New(start), calls, Call(start + 20, "c"), maxSize, maxNum);
    calls := calls + [Call(start + 20, "c")];
    NoSuffix(Run(New(start), calls, maxSize, maxNum), a, maxNum);
  }

  lemma RunMore(s: Log, calls: seq<Call>, last: Call, maxSize: int, maxNum: int)
    ensures Run(s, [], maxSize, maxNum) == s
    ensures Run(s, calls + [last], maxSize, maxNum) ==
      Rolled(Run(s, calls, maxSize, maxNum), last.now, last.data, maxSize, maxNum)
  {
    assert (calls + [last])[..|calls|] == calls;
  }

  lemma FirstRolled(start: int, maxSize: int, maxNum: int)
    requires maxNum <= 1
    ensures var a, other := Full(maxSize), Numbered(maxNum - 1);
      Rolled(New(start), start + 10, a, maxSize, maxNum) ==
      Log(start + 10, true, other, map[Base := a, other := ""], a)
  {
    hide Rotated, Full;
    var a := Full(maxSize);
    assert "" + a == a && Append(map[], Base, a) == map[Base := a];
    RotatingFew(map[Base := a], maxNum);
  }

  lemma SecondRolled(s: Log, start: int, maxSize: int, maxNum: int)
    requires maxNum <= 1
    requires var a, other := Full(maxSize), Numbered(maxNum - 1);
      s == Log(start + 10, true, other, map[Base := a, other := ""], a)
    ensures var a, other := Full(maxSize), Numbered(maxNum - 1);
      Rolled(s, start + 11, "b", maxSize, maxNum) ==
      Log(start + 10, true, other, map[Base := a, other := "b"], a + "b")
  {
    hide Rotated, Full;
    assert "" + "b" == "b";
  }

  lemma ThirdRolled(s: Log, start: int, maxSize: int, maxNum: int)
    requires maxNum <= 1
    requires var a, other := Full(maxSize), Numbered(maxNum - 1);
      s == Log(start + 10, true, other, map[Base := a, other := "b"], a + "b")
    ensures var a, other := Full(maxSize), Numbered(maxNum - 1);
      Rolled(s, start + 20, "c", maxSize, maxNum) ==
      Log(start + 20, true, other, map[Base := a + "c", other := ""], a + "b" + "c")
  {
    hide Rotated;
    var a, other := Full(maxSize), Numbered(maxNum - 1);
    var disk := map[Base := a + "c", other := "b"];
    assert Append(s.disk, Base, "c") == disk;
    RotatingFew(disk, maxNum);
    assert disk[other := ""] == map[Base := a + "c", other := ""];
  }

  lemma NoSuffix(s: Log, a: string, maxNum: int)
    requires s.written == a + "b" + "c" && |a| >= 1 && a[|a| - 1] == 'a'
    requires s.disk == map[Base := a + "c", Numbered(maxNum - 1) := ""]
    ensures !KeepsSuffix(s) && |s.disk| == 2
  {
    var other := Numbered(maxNum - 1);
    assert s.disk.Keys == {Base, other};
    forall fs, dropped | Lists(s.disk, fs) ensures s.written != dropped + Contents(s.disk, fs) {
      TwoListed(s.disk, fs, other);
      ContentsOfTwo(s.disk, other, Base);
      assert Contents(s.disk, fs) == a + "c";
      NoTail(a, dropped);
    }
  }

  lemma NoTail(a: string, dropped: string)
    requires |a| >= 1 && a[|a| - 1] == 'a'
    ensures a + "b" + "c" != dropped + (a + "c")
  {
    var all, kept := a + "b" + "c", dropped + (a + "c");
    if |all| == |kept| {
      assert all[|a|] == 'b';
      assert kept[|a|] == (a + "c")[|a| - 1] == 'a';
    }
  }

  lemma Listed(disk: Disk, fs: seq<Name>, j: nat, k: nat)
    requires Lists(disk, fs) && j < |fs| && k < |fs|
    ensures fs[j] in disk && (j < k ==> Above(fs[j], fs[k]))
  {
    assert fs[j] in fs;
  }

  lemma ContentsOfTwo(disk: Disk, f: Name, g: Name)
    ensures Contents(disk, [f, g]) == Content(disk, f) + Content(disk, g)
  {
    assert [f, g][1..] == [g] && [g][1..] == [];
    assert Contents(disk, [g]) == Content(disk, g) + Contents(disk, []);
  }

  lemma TwoListed(disk: Disk, fs: seq<Name>, other: Name)
    requires Lists(disk, fs) && disk.Keys == {Base, other} && other.Numbered?
    ensures fs == [other, Base]
  {
    assert Base in disk && other in disk;
    var i :| 0 <= i < |fs| && fs[i] == other;
    var j :| 0 <= j < |fs| && fs[j] == Base;
    hide Lists;
    if j < |fs| - 1 {
      Listed(disk, fs, j, j + 1);
    }
    forall k | 0 <= k < j ensures fs[k] == other {
      Listed(disk, fs, k, j);
      assert fs[k] in disk.Keys;
    }
    if j > 1 {
      Listed(disk, fs, 0, 1);
    }
  }

  /**
   In all runs of a new log the files are the last part of everything written, and there are no more of
   them than allowed, exactly when at least two are allowed.
   */
  lemma RotationKeepsExactly(start: int, maxSize: int, maxNum: int)
    ensures (forall calls :: KeepsSuffix(Run(New(start), calls, maxSize, maxNum))) <==> maxNum >= 2
    ensures (forall calls :: |Run(New(start), calls, maxSize, maxNum).disk| <= maxNum) <==> maxNum >= 2
  {
    hide Run, KeepsSuffix;
    if maxNum >= 2 {
      HoldsNone();
      forall calls
        ensures var s := Run(New(start), calls, maxSize, maxNum);
          KeepsSuffix(s) && |s.disk| <= maxNum
      {
        RunKeepsSuffix(New(start), calls, maxSize, maxNum, 0, "");
      }
    } else {
      var calls := TextLost(start, maxSize, maxNum);
    }
  }
}
