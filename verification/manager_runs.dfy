/** Runs of core/transfer/manager.py outside the hypotheses of its quota
  * theorems, and what goes wrong in them. */
module ManagerRuns {
  import opened Wrappers
  import opened Bytes
  import opened MapSums
  import opened FileReceivers
  import opened DestPaths
  import opened TransferManagers

  lemma AfterOneMore(l: Limits, files: Files, ops: seq<Op>, op: Op)
    ensures After(l, files, ops + [op]) == Next(l, After(l, files, ops), op)
  {
    assert (ops + [op])[..|ops|] == ops;
  }

  // ---- What single calls do --------------------------------------------------------------------------------

  const Open := Progress(0, 0, Receiving, true)

  function Registered(size: nat, checksum: string, dest: Path, p: Progress): Entry {
    Entry(Offer(size, checksum, dest, ChunkSize), p)
  }

  lemma ValidateEffect(l: Limits, s: State, name: string, size: nat)
    requires CleanName(name) && 0 < size <= MaxIncomingFileSize && Room(l, s.table, size)
    requires Free(s.files.Keys, Join(l.dir, name))
    ensures Next(l, s, Validate(name, size, None))
         == s.(tickets := s.tickets + [Ticket(size, Join(l.dir, name), false)])
  {
    FreeAtOnce(s.files.Keys, l.dir, name);
  }

  lemma CreateEffect(l: Limits, s: State, i: nat, id: Id, checksum: string)
    requires i < |s.tickets|
    ensures Next(l, s, Create(i, id, checksum))
         == s.(table := s.table[id := Registered(s.tickets[i].size, checksum, s.tickets[i].dest, Idle)],
               tickets := Stale(s.tickets))
  {}

  lemma StartEffect(l: Limits, s: State, id: Id)
    requires id in s.table && s.table[id].offer.chunkSize == ChunkSize
    ensures Next(l, s, Start(id, false))
         == s.(table := s.table[id := s.table[id].(progress := Open)],
               files := s.files[PartPath(s.table[id].offer.dest) := []])
  {}

  /** A whole file in one chunk, to a receiver just started. */
  lemma ChunkEffect(l: Limits, s: State, id: Id, file: Bytes)
    requires id in s.table && s.table[id].progress == Open && |file| == s.table[id].offer.size
    requires PartPath(s.table[id].offer.dest) in s.files && s.files[PartPath(s.table[id].offer.dest)] == []
    ensures Next(l, s, Chunk(id, 0, 0, file)) == Filled(s, id, file)
  {
    assert [] + file == file;
  }

  lemma FinishEffect(l: Limits, s: State, id: Id, file: Bytes)
    requires id in s.table && s.table[id].progress.bytesReceived == s.table[id].offer.size
    requires PartPath(s.table[id].offer.dest) in s.files && s.files[PartPath(s.table[id].offer.dest)] == file
    requires s.table[id].offer.checksum == l.digest(file)
    ensures Next(l, s, Finishing(id)) == Finished(s, id, file)
  {}

  /** The states after the calls above. */
  function Started(s: State, id: Id, e: Entry): State {
    State(s.table[id := e], s.files[PartPath(e.offer.dest) := []],
      Stale(s.tickets + [Ticket(e.offer.size, e.offer.dest, false)]))
  }

  function Filled(s: State, id: Id, file: Bytes): State
    requires id in s.table
  {
    s.(table := s.table[id := s.table[id].(progress := Progress(|file|, 1, Receiving, true))],
       files := s.files[PartPath(s.table[id].offer.dest) := file])
  }

  function Finished(s: State, id: Id, file: Bytes): State
    requires id in s.table
  {
    var e := s.table[id];
    s.(table := s.table[id := e.(progress := e.progress.(isOpen := false, status := Done))],
       files := (s.files - {PartPath(e.offer.dest)})[e.offer.dest := file])
  }

  // ---- Two validations, then two registrations ----------------------------------------------------------

  /** Each offer passes its own validation, but the second is registered after
    * the first: with a limit of one, two transfers are active. */
  lemma OverlapExceedsLimit(l: Limits, name: string)
    requires CleanName(name) && l.maxConcurrent == 1 && l.maxTotal >= 2
    ensures var v := Validate(name, 1, None);
            var s := After(l, map[], [v] + [v] + [Create(0, "a", "")] + [Create(1, "b", "")]);
            |s.tickets| == 2 && Sum(Counts(s.table)) == 2
  {
    var v, ca, cb := Validate(name, 1, None), Create(0, "a", ""), Create(1, "b", "");
    var dest := Join(l.dir, name);
    var t := Ticket(1, dest, false);
    NothingWeighs();
    var s0 := State(map[], map[], []);
    assert s0.files.Keys == {} && After(l, map[], []) == s0;
    ValidateEffect(l, s0, name, 1);
    AfterOneMore(l, map[], [], v);
    assert [] + [v] == [v] && [] + [t] == [t];
    var s1 := s0.(tickets := [t]);
    ValidateEffect(l, s1, name, 1);
    AfterOneMore(l, map[], [v], v);
    var s2 := s0.(tickets := [t] + [t]);
    OverlapRegisters(l, s2, dest);
    AfterOneMore(l, map[], [v] + [v], ca);
    AfterOneMore(l, map[], [v] + [v] + [ca], cb);
  }

  lemma OverlapRegisters(l: Limits, s: State, dest: Path)
    requires s.table == map[] && s.tickets == [Ticket(1, dest, false)] + [Ticket(1, dest, false)]
    ensures var t := Next(l, Next(l, s, Create(0, "a", "")), Create(1, "b", ""));
            |t.tickets| == 2 && Sum(Counts(t.table)) == 2
  {
    var e := Registered(1, "", dest, Idle);
    CreateEffect(l, s, 0, "a", "");
    var s1 := Next(l, s, Create(0, "a", ""));
    CreateEffect(l, s1, 1, "b", "");
    NothingWeighs();
    WeighUpdate(Weight, s.table, "a", e);
    WeighUpdate(Weight, s1.table, "b", e);
  }

  lemma NothingWeighs()
    ensures Sum(Counts(map[])) == 0 && Sum(Sizes(map[])) == 0
  {
    assert Counts(map[]) == map[] && Sizes(map[]) == map[];
  }

  // ---- A .part file that is another transfer's destination ------------------------------------------------

  /** Some orderly run from an empty directory ends in s. */
  ghost predicate Reached(l: Limits, s: State) {
    exists ops :: OrderlyRun(l, map[], ops) && After(l, map[], ops) == s
  }

  lemma OrderlyOneMore(l: Limits, files: Files, ops: seq<Op>, op: Op)
    requires OrderlyRun(l, files, ops) && Orderly(After(l, files, ops), op)
    ensures OrderlyRun(l, files, ops + [op])
  {
    var more := ops + [op];
    forall i | 0 <= i < |more| ensures Orderly(After(l, files, more[..i]), more[i]) {
      if i < |ops| {
        assert more[..i] == ops[..i] && more[i] == ops[i];
      } else {
        assert more[..i] == ops && more[i] == op;
      }
    }
  }

  lemma ReachedStep(l: Limits, s: State, op: Op, t: State)
    requires Reached(l, s) && Orderly(s, op) && t == Next(l, s, op)
    ensures Reached(l, t)
  {
    var ops :| OrderlyRun(l, map[], ops) && After(l, map[], ops) == s;
    AfterOneMore(l, map[], ops, op);
    OrderlyOneMore(l, map[], ops, op);
  }

  lemma ReachedValidate(l: Limits, s: State, name: string, size: nat)
    requires Reached(l, s) && CleanName(name) && 0 < size <= MaxIncomingFileSize && Room(l, s.table, size)
    requires Free(s.files.Keys, Join(l.dir, name))
    ensures Reached(l, s.(tickets := s.tickets + [Ticket(size, Join(l.dir, name), false)]))
  {
    ValidateEffect(l, s, name, size);
    ReachedStep(l, s, Validate(name, size, None), s.(tickets := s.tickets + [Ticket(size, Join(l.dir, name), false)]));
  }

  lemma ReachedCreate(l: Limits, s: State, i: nat, id: Id, checksum: string)
    requires Reached(l, s) && i < |s.tickets| && !s.tickets[i].stale
    ensures Reached(l, s.(table := s.table[id := Registered(s.tickets[i].size, checksum, s.tickets[i].dest, Idle)],
                          tickets := Stale(s.tickets)))
  {
    CreateEffect(l, s, i, id, checksum);
    ReachedStep(l, s, Create(i, id, checksum), Next(l, s, Create(i, id, checksum)));
  }

  lemma ReachedStart(l: Limits, s: State, id: Id)
    requires Reached(l, s) && id in s.table && s.table[id].Active() && s.table[id].offer.chunkSize == ChunkSize
    ensures Reached(l, s.(table := s.table[id := s.table[id].(progress := Open)],
                          files := s.files[PartPath(s.table[id].offer.dest) := []]))
  {
    StartEffect(l, s, id);
    ReachedStep(l, s, Start(id, false), Next(l, s, Start(id, false)));
  }

  /** Validate, register and start one transfer whose own name is free. */
  lemma ReachedStarted(l: Limits, s: State, id: Id, name: string, e: Entry)
    requires Reached(l, s) && CleanName(name) && Free(s.files.Keys, Join(l.dir, name))
    requires e == Registered(e.offer.size, e.offer.checksum, Join(l.dir, name), Open)
    requires 0 < e.offer.size <= MaxIncomingFileSize && Room(l, s.table, e.offer.size)
    ensures Reached(l, Started(s, id, e))
  {
    var n := |s.tickets|;
    ReachedValidate(l, s, name, e.offer.size);
    var s1 := s.(tickets := s.tickets + [Ticket(e.offer.size, e.offer.dest, false)]);
    ReachedCreate(l, s1, n, id, e.offer.checksum);
    var s2 := s1.(table := s.table[id := e.(progress := Idle)], tickets := Stale(s1.tickets));
    ReachedStart(l, s2, id);
    assert s2.table[id := e] == s.table[id := e];
  }

  lemma ReachedFilled(l: Limits, s: State, id: Id, file: Bytes)
    requires Reached(l, s) && id in s.table && s.table[id].progress == Open && |file| == s.table[id].offer.size
    requires PartPath(s.table[id].offer.dest) in s.files && s.files[PartPath(s.table[id].offer.dest)] == []
    ensures Reached(l, Filled(s, id, file))
  {
    ChunkEffect(l, s, id, file);
    ReachedStep(l, s, Chunk(id, 0, 0, file), Filled(s, id, file));
  }

  lemma ReachedFinished(l: Limits, s: State, id: Id, file: Bytes)
    requires Reached(l, s) && id in s.table && s.table[id].progress.bytesReceived == s.table[id].offer.size
    requires PartPath(s.table[id].offer.dest) in s.files && s.files[PartPath(s.table[id].offer.dest)] == file
    requires s.table[id].offer.checksum == l.digest(file)
    ensures Reached(l, Finished(s, id, file))
  {
    FinishEffect(l, s, id, file);
    ReachedStep(l, s, Finishing(id), Finished(s, id, file));
  }

  lemma PathLengths(dir: Path, name: string)
    ensures var p := Join(dir, name); var n := |p|;
            && |PartPath(p)| == n + 5 && |PartPath(PartPath(p))| == n + 10
            && |Join(dir, name + "y")| == n + 1 && |PartPath(Join(dir, name + "y"))| == n + 6
  {}

  lemma CleanLonger(name: string)
    requires CleanName(name)
    ensures CleanName(name + "y")
  {
    var longer := name + "y";
    assert longer[0] == name[0] && longer[|longer| - 1] == 'y';
    if |longer| == 2 { assert longer[1] == 'y'; }
  }

  lemma SumsOfOne(a: Id, e: Entry)
    ensures Sum(Counts(map[a := e])) == Weight(e) && Sum(Sizes(map[a := e])) == Load(e)
  {
    NothingWeighs();
    WeighUpdate(Weight, map[], a, e);
    WeighUpdate(Load, map[], a, e);
  }

  lemma SumOfTwo(f: Entry -> nat, a: Id, d: Entry, b: Id, e: Entry)
    requires a != b
    ensures Sum(Weigh(f, map[a := d, b := e])) == f(d) + f(e)
  {
    assert Weigh(f, map[]) == map[];
    WeighUpdate(f, map[], a, d);
    WeighUpdate(f, map[a := d], b, e);
    assert map[a := d][b := e] == map[a := d, b := e];
  }

  const File: Bytes := [7, 7]

  /** Two transfers started in turn: the first was offered under the second's
    * name with .part behind it. Each path was free when it was given out. */
  lemma BothStarted(l: Limits, name: string, a: Entry, b: Entry) returns (s: State)
    requires CleanName(name) && l.maxConcurrent == 2 && l.maxTotal == 3
    requires a == Registered(2, l.digest(File), PartPath(Join(l.dir, name)), Open)
    requires b == Registered(1, "", Join(l.dir, name), Open)
    ensures Reached(l, s) && s.table == map["a" := a, "b" := b]
    ensures s.files == map[PartPath(a.offer.dest) := [], a.offer.dest := []]
  {
    PathLengths(l.dir, name);
    CleanPartName(name);
    NothingWeighs();
    var s0 := State(map[], map[], []);
    assert Reached(l, s0) by { assert OrderlyRun(l, map[], []) && After(l, map[], []) == s0; }
    ReachedStarted(l, s0, "a", name + PartExtension, a);
    var s1 := Started(s0, "a", a);
    assert s1.table == map["a" := a] && s1.files == map[PartPath(a.offer.dest) := []];
    SumsOfOne("a", a);
    ReachedStarted(l, s1, "b", name, b);
    s := Started(s1, "b", b);
  }

  /** After the first transfer is delivered, its file sits at the path of the
    * second one's .part: the second is open, has accepted nothing, and its
    * .part holds the whole first file. */
  lemma DeliveredIntoPart(l: Limits, name: string, a: Entry, b: Entry) returns (s: State)
    requires CleanName(name) && l.maxConcurrent == 2 && l.maxTotal == 3
    requires a == Registered(2, l.digest(File), PartPath(Join(l.dir, name)), Progress(2, 1, Done, false))
    requires b == Registered(1, "", Join(l.dir, name), Open)
    ensures Reached(l, s) && s.table == map["a" := a, "b" := b]
    ensures s.files == map[PartPath(b.offer.dest) := File] && !OnDisk(b, s.files) && !Bounded(b, s.files)
  {
    var s2 := BothStarted(l, name, a.(progress := Open), b);
    FirstArrives(s2, a, b);
    ReachedFilled(l, s2, "a", File);
    ReachedFinished(l, Filled(s2, "a", File), "a", File);
    s := Finished(Filled(s2, "a", File), "a", File);
  }

  lemma FirstArrives(s: State, a: Entry, b: Entry)
    requires a.progress == Progress(2, 1, Done, false) && s.table == map["a" := a.(progress := Open), "b" := b]
    requires s.files == map[PartPath(a.offer.dest) := [], a.offer.dest := []]
    ensures var t := Filled(s, "a", File); var p := PartPath(a.offer.dest);
            && t.table == map["a" := a.(progress := Progress(2, 1, Receiving, true)), "b" := b]
            && p in t.files && t.files[p] == File
            && Finished(t, "a", File).table == map["a" := a, "b" := b]
            && Finished(t, "a", File).files == map[a.offer.dest := File]
  {
    var first := a.offer.dest;
    assert |PartPath(first)| > |first|;
    var t := Filled(s, "a", File);
    assert t.files == map[PartPath(first) := File, first := []];
    assert t.table == map["a" := a.(progress := Progress(2, 1, Receiving, true)), "b" := b];
  }

  lemma ThirdHasRoom(l: Limits, a: Entry, b: Entry)
    requires l.maxConcurrent == 2 && l.maxTotal == 3 && !a.Active() && b.Active() && b.offer.size == 1
    ensures Room(l, map["a" := a, "b" := b], 2)
  {
    SumOfTwo(Weight, "a", a, "b", b);
    SumOfTwo(Load, "a", a, "b", b);
  }

  lemma SumOfThree(f: Entry -> nat, a: Entry, b: Entry, c: Entry)
    ensures Sum(Weigh(f, map["a" := a, "b" := b]["c" := c])) == f(a) + f(b) + f(c)
  {
    SumOfTwo(f, "a", a, "b", b);
    WeighUpdate(f, map["a" := a, "b" := b], "c", c);
  }

  lemma BothPartsFull(files: Files, a: Entry, b: Entry, c: Entry)
    requires b.progress.isOpen && c.progress.isOpen
    requires PartPath(b.offer.dest) in files && files[PartPath(b.offer.dest)] == File
    requires PartPath(c.offer.dest) in files && files[PartPath(c.offer.dest)] == File
    ensures Sum(Weigh(DiskBytes(files), map["a" := a, "b" := b]["c" := c])) > 3
  {
    SumOfThree(DiskBytes(files), a, b, c);
  }

  /** So the limit frees two bytes that are still on disk, and a third transfer
    * takes the open .part files over the total limit. */
  lemma DiskQuotaExceeded(l: Limits, name: string) returns (s: State)
    requires CleanName(name) && l.maxConcurrent == 2 && l.maxTotal == 3
    ensures Reached(l, s) && Sum(Weigh(DiskBytes(s.files), s.table)) > l.maxTotal
  {
    var dest, other := Join(l.dir, name), Join(l.dir, name + "y");
    var a := Registered(2, l.digest(File), PartPath(dest), Progress(2, 1, Done, false));
    var b, c := Registered(1, "", dest, Open), Registered(2, "", other, Open);
    PathLengths(l.dir, name);
    CleanLonger(name);
    var s0 := DeliveredIntoPart(l, name, a, b);
    ThirdHasRoom(l, a, b);
    ReachedStarted(l, s0, "c", name + "y", c);
    var s1 := Started(s0, "c", c);
    ReachedFilled(l, s1, "c", File);
    s := Filled(s1, "c", File);
    assert s.files == map[PartPath(dest) := File, PartPath(other) := File];
    var full := c.(progress := Progress(2, 1, Receiving, true));
    assert s.table == map["a" := a, "b" := b]["c" := full];
    BothPartsFull(s.files, a, b, full);
  }
}
