/** bulk/shards.go: the shard directory, its two-file write protocol, and filling it. */
module Shards {
  import opened Half
  import opened Matrix
  import opened Order

  const DIM: nat := 512

  type Vector = seq<Bits32>

  /** run tells the writers apart; seq_ counts one writer's shards. */
  datatype Name = Name(run: int, number: nat)

  datatype Path = VectorsOf(name: Name) | IdsOf(name: Name)

  datatype File = Vectors(npy: Npy) | Ids(ids: seq<int>)

  /** What a step of the file system does: it works, it returns an error, or the process dies there. */
  datatype Event = Works | Errors | Dies

  datatype Outcome = Finished | Failed | Crashed

  // ------------------------------------------------------------------------------ the directory

  /** The shard's rows are of embeddings that were given, each id at its vector's row. */
  ghost predicate Complete(files: map<Path, File>, given: set<(int, Vector)>, name: Name)
    requires IdsOf(name) in files
  {
    && files[IdsOf(name)].Ids? && VectorsOf(name) in files && files[VectorsOf(name)].Vectors?
    && MatrixOf(files[VectorsOf(name)].npy).Ok?
    && var ids, rows := files[IdsOf(name)].ids, MatrixOf(files[VectorsOf(name)].npy).value;
    |rows| == |ids| && forall k :: 0 <= k < |ids| ==> RowGiven(given, ids[k], rows[k])
  }

  ghost predicate RowGiven(given: set<(int, Vector)>, id: int, row: Vector) {
    exists v :: (id, v) in given && row == KeptRow(v, true)
  }

  /** Whatever happened, every ids file has its vectors beside it. */
  ghost predicate Sound(files: map<Path, File>, given: set<(int, Vector)>) {
    forall name {:trigger IdsOf(name)} :: IdsOf(name) in files ==> Complete(files, given, name)
  }

  /** Some complete shard holds id. */
  ghost predicate Held(files: map<Path, File>, id: int) {
    exists name :: HeldBy(files, id, name)
  }

  ghost predicate HeldBy(files: map<Path, File>, id: int, name: Name) {
    IdsOf(name) in files && VectorsOf(name) in files && files[IdsOf(name)].Ids? && id in files[IdsOf(name)].ids
  }

  /** A vectors file alone changes nothing. */
  lemma VectorsStaySound(files: map<Path, File>, given: set<(int, Vector)>, name: Name, npy: Npy)
    requires Sound(files, given) && IdsOf(name) !in files
    ensures Sound(files[VectorsOf(name) := Vectors(npy)], given)
  {
    hide MatrixOf, RowGiven;
    var after := files[VectorsOf(name) := Vectors(npy)];
    forall other {:trigger IdsOf(other)} | IdsOf(other) in after
      ensures Complete(after, given, other)
    {
      assert IdsOf(other) in files && other != name;
    }
  }

  /** The ids file, written once the vectors are there, completes the shard. */
  lemma IdsStaySound(files: map<Path, File>, given: set<(int, Vector)>, name: Name, ids: seq<int>, vectors: seq<Vector>)
    requires Sound(files, given) && |ids| == |vectors|
    requires VectorsOf(name) in files && files[VectorsOf(name)] == Vectors(Written(vectors, DIM, true))
    requires forall k :: 0 <= k < |vectors| ==> |vectors[k]| == DIM && (ids[k], vectors[k]) in given
    ensures Sound(files[IdsOf(name) := Ids(ids)], given)
  {
    var after := files[IdsOf(name) := Ids(ids)];
    assert MatrixOf(Written(vectors, DIM, true)) == Ok(KeptRows(vectors, true)) by { RowsBack(vectors, 0, DIM, true); }
    hide MatrixOf, Written, KeptRow;
    forall other {:trigger IdsOf(other)} | IdsOf(other) in after
      ensures Complete(after, given, other)
    {
      if other != name { assert IdsOf(other) in files && Complete(files, given, other); }
    }
  }

  class Disk {
    var files: map<Path, File>
    var temps: set<nat>
    var nextTemp: nat

    /** What each step of the file system does, and how many steps there have been. */
    const events: nat -> Event
    var clock: nat

    /** Every embedding ever handed to a writer of this directory. */
    ghost var given: set<(int, Vector)>

    constructor (events: nat -> Event)
      ensures files == map[] && Sound(files, given) && this.events == events && clock == 0
    {
      files, temps, nextTemp, given, clock := map[], {}, 0, {}, 0;
      this.events := events;
    }

    method Step() returns (e: Event)
      modifies `clock
      ensures clock == old(clock) + 1 && e == events(old(clock))
    {
      e := events(clock);
      clock := clock + 1;
    }
  }

  /** All the steps from one time to another worked. */
  ghost predicate Worked(events: nat -> Event, from: nat, to: nat) {
    forall t :: from <= t < to ==> events(t) == Works
  }

  /** The steps from one time to another worked, up to the last, which did e. */
  ghost predicate EndsWith(events: nat -> Event, from: nat, to: nat, e: Event) {
    from < to && Worked(events, from, to - 1) && events(to - 1) == e
  }

  /** writeFileAtomic: the file appears under its own name whole, or not at all. */
  method WriteFileAtomic(disk: Disk, path: Path, content: Result<File>) returns (o: Outcome)
    modifies disk`files, disk`temps, disk`nextTemp, disk`clock
    ensures disk.clock >= old(disk.clock)
    ensures o == Finished ==> content.Ok? && disk.files == old(disk.files)[path := content.value]
    ensures o == Finished ==> Worked(disk.events, old(disk.clock), disk.clock)
    ensures o == Failed ==> disk.files == old(disk.files) && disk.temps == old(disk.temps) - {old(disk.nextTemp)}
    ensures o == Failed ==> content.Err? || EndsWith(disk.events, old(disk.clock), disk.clock, Errors)
    ensures o == Crashed ==> disk.files == old(disk.files) && EndsWith(disk.events, old(disk.clock), disk.clock, Dies)
  {
    var temp := disk.nextTemp;
    disk.temps, disk.nextTemp := disk.temps - {temp}, temp + 1;
    var create := disk.Step();
    if create == Errors { return Failed; }
    if create == Dies { return Crashed; }
    disk.temps := disk.temps + {temp};
    var write := disk.Step();
    if write == Dies { return Crashed; }
    if write == Errors || content.Err? {
      disk.temps := disk.temps - {temp};
      return Failed;
    }
    var rename := disk.Step();
    if rename == Dies { return Crashed; }
    if rename == Errors {
      disk.temps := disk.temps - {temp};
      return Failed;
    }
    disk.files := disk.files[path := content.value];
    disk.temps := disk.temps - {temp};
    o := Finished;
  }

  // --------------------------------------------------------------------------------- the writer

  datatype Shard = Shard(name: Name, ids: seq<int>, vectors: seq<Vector>)

  ghost function Zip(ids: seq<int>, vectors: seq<Vector>): (z: seq<(int, Vector)>)
    requires |ids| == |vectors|
    ensures |z| == |ids|
  {
    seq(|ids|, k requires 0 <= k < |ids| => (ids[k], vectors[k]))
  }

  ghost predicate Even(shards: seq<Shard>) {
    forall k :: 0 <= k < |shards| ==> |shards[k].ids| == |shards[k].vectors|
  }

  /** The rows of the shards, one shard after the other. */
  ghost function Flat(shards: seq<Shard>): seq<(int, Vector)>
    requires Even(shards)
  {
    if shards == [] then [] else
      Flat(shards[..|shards| - 1]) + Zip(shards[|shards| - 1].ids, shards[|shards| - 1].vectors)
  }

  ghost predicate OnDisk(files: map<Path, File>, s: Shard) {
    && IdsOf(s.name) in files && files[IdsOf(s.name)] == Ids(s.ids)
    && VectorsOf(s.name) in files && files[VectorsOf(s.name)] == Vectors(Written(s.vectors, DIM, true))
  }

  /** No file of this run has a number above n. */
  ghost predicate NumberedUpTo(files: map<Path, File>, run: int, n: nat) {
    forall p: Path {:trigger p in files} :: p in files && p.name.run == run ==> p.name.number <= n
  }

  /** Everything of the other runs is as it was. */
  ghost predicate OthersKept(before: map<Path, File>, after: map<Path, File>, run: int) {
    forall p: Path {:trigger p in after} {:trigger p in before} :: p.name.run != run ==>
      (p in after <==> p in before) && (p in before ==> after[p] == before[p])
  }

  /** What the writer's memory and the directory say together. */
  ghost predicate Consistent(files: map<Path, File>, given: set<(int, Vector)>, run: int, number: nat, ids: seq<int>,
                             vectors: seq<Vector>, written: nat, shards: seq<Shard>, added: seq<(int, Vector)>)
  {
    && Sound(files, given) && NumberedUpTo(files, run, number)
    && |ids| == |vectors| && Even(shards)
    && (forall s: Shard :: s in shards ==> OnDisk(files, s) && s.name.run == run)
    && added == Flat(shards) + Zip(ids, vectors) && written == |Flat(shards)|
    && (forall e :: e in added ==> e in given)
  }

  /** A write finishes when every step works, fails on an error or a vector of another length, and
    * crashes only when the process dies. */
  ghost predicate Explained(o: Outcome, vectors: seq<Vector>, events: nat -> Event, from: nat, to: nat) {
    match o
    case Finished => Worked(events, from, to)
    case Failed => Misfits(vectors) || EndsWith(events, from, to, Errors)
    case Crashed => EndsWith(events, from, to, Dies)
  }

  ghost predicate Misfits(vectors: seq<Vector>) {
    exists k :: 0 <= k < |vectors| && |vectors[k]| != 512
  }

  class ShardWriter {
    const disk: Disk
    const rows: nat
    const run: int
    var number: nat
    var ids: seq<int>
    var vectors: seq<Vector>
    var written: nat

    /** The complete shards this writer wrote, and all that was added to it. */
    ghost var shards: seq<Shard>
    ghost var added: seq<(int, Vector)>

    ghost predicate Valid()
      reads this, disk
    {
      rows > 0 && Consistent(disk.files, disk.given, run, number, ids, vectors, written, shards, added)
    }

    /** run is a name no writer of the directory has had. */
    constructor (disk: Disk, rows: int, run: int)
      requires Sound(disk.files, disk.given)
      requires forall p {:trigger p in disk.files} :: p in disk.files ==> p.name.run != run
      ensures Valid() && added == [] && this.disk == disk && this.run == run && ids == []
      ensures this.rows == if rows <= 0 then 0x10_0000 else rows
    {
      this.disk, this.run := disk, run;
      this.rows := if rows <= 0 then 0x10_0000 else rows;
      number, ids, vectors, written := 0, [], [], 0;
      shards, added := [], [];
    }

    /** A crash or an error at any step leaves the directory sound. Unless the process dies, the rows of
      * the shards followed by the buffer are exactly what was added, in order. */
    method Add(id: int, vector: Vector) returns (o: Outcome)
      requires Valid()
      modifies this, disk
      ensures Sound(disk.files, disk.given) && OthersKept(old(disk.files), disk.files, run)
      ensures o != Crashed ==> Valid() && added == old(added) + [(id, vector)]
      ensures o == Finished ==> |ids| < rows
      ensures o == Finished && |old(ids)| + 1 < rows ==> disk.files == old(disk.files)
      ensures o == Failed ==> ids == old(ids) + [id] && vectors == old(vectors) + [vector] && shards == old(shards)
      ensures disk.clock >= old(disk.clock) && Explained(o, vectors, disk.events, old(disk.clock), disk.clock)
    {
      hide Consistent, Sound;
      Appended(disk.files, disk.given, run, number, ids, vectors, written, shards, added, id, vector);
      ids, vectors := ids + [id], vectors + [vector];
      added := added + [(id, vector)];
      disk.given := disk.given + {(id, vector)};
      if |ids| >= rows {
        o := Flush();
      } else {
        o := Finished;
        ConsistentSound(disk.files, disk.given, run, number, ids, vectors, written, shards, added);
      }
    }

    /** flushLocked: the vectors first, the ids last; the buffer is dropped only after both. */
    method Flush() returns (o: Outcome)
      requires Valid()
      modifies this`number, this`ids, this`vectors, this`written, this`shards, disk`files, disk`temps, disk`nextTemp,
        disk`clock
      ensures Sound(disk.files, disk.given) && OthersKept(old(disk.files), disk.files, run)
      ensures o != Crashed ==> Valid()
      ensures o == Finished ==> ids == []
      ensures o == Finished ==> shards == if old(ids) == [] then old(shards)
        else old(shards) + [Shard(Name(run, number), old(ids), old(vectors))]
      ensures o == Failed ==>
        ids == old(ids) && vectors == old(vectors) && shards == old(shards) && written == old(written)
      ensures disk.clock >= old(disk.clock) && Explained(o, vectors, disk.events, old(disk.clock), disk.clock)
    {
      hide Consistent, Sound, OthersKept, Written;
      ConsistentSound(disk.files, disk.given, run, number, ids, vectors, written, shards, added);
      AllKept(disk.files, run);
      if |ids| == 0 { return Finished; }
      number := number + 1;
      var name := Name(run, number);
      ghost var before := disk.files;
      assert IdsOf(name) !in before && VectorsOf(name) !in before by {
        NextFree(before, disk.given, run, number - 1, ids, vectors, written, shards, added);
      }
      var matrix := WriteMatrix(vectors, DIM, true);
      var content: Result<File> := if matrix.Ok? then Ok(Vectors(matrix.value)) else Err(matrix.error);
      o := WriteFileAtomic(disk, VectorsOf(name), content);
      if disk.files != before {
        VectorsStaySound(before, disk.given, name, matrix.value);
        OneKept(before, before, VectorsOf(name), content.value, run);
      }
      if o == Failed {
        Renumbered(before, disk.given, run, number, ids, vectors, written, shards, added);
        return;
      }
      if o == Crashed { return; }
      ghost var mid := disk.files;
      VectorsAlone(before, disk.given, run, number, ids, vectors, written, shards, added, matrix.value);
      o := WriteFileAtomic(disk, IdsOf(name), Ok(Ids(ids)));
      if disk.files != mid {
        RowsGiven(mid, disk.given, run, number, ids, vectors, written, shards, added);
        IdsStaySound(mid, disk.given, name, ids, vectors);
        OneKept(before, mid, IdsOf(name), Ids(ids), run);
      }
      if o != Finished { return; }
      ShardAdded(mid, disk.given, run, number, ids, vectors, written, shards, added);
      shards := shards + [Shard(name, ids, vectors)];
      written := written + |ids|;
      ids, vectors := [], [];
    }
  }

  lemma ConsistentSound(files: map<Path, File>, given: set<(int, Vector)>, run: int, number: nat, ids: seq<int>,
                        vectors: seq<Vector>, written: nat, shards: seq<Shard>, added: seq<(int, Vector)>)
    requires Consistent(files, given, run, number, ids, vectors, written, shards, added)
    ensures Sound(files, given) && |ids| == |vectors|
  {}

  /** A file that the directory does not have under the next number. */
  lemma NextFree(files: map<Path, File>, given: set<(int, Vector)>, run: int, number: nat, ids: seq<int>,
                 vectors: seq<Vector>, written: nat, shards: seq<Shard>, added: seq<(int, Vector)>)
    requires Consistent(files, given, run, number, ids, vectors, written, shards, added)
    ensures IdsOf(Name(run, number + 1)) !in files && VectorsOf(Name(run, number + 1)) !in files
  {
    hide Sound, OnDisk;
  }

  lemma AllKept(files: map<Path, File>, run: int)
    ensures OthersKept(files, files, run)
  {}

  lemma OneKept(first: map<Path, File>, files: map<Path, File>, p: Path, f: File, run: int)
    requires OthersKept(first, files, run) && p.name.run == run
    ensures OthersKept(first, files[p := f], run)
  {}

  lemma Appended(files: map<Path, File>, given: set<(int, Vector)>, run: int, number: nat, ids: seq<int>,
                 vectors: seq<Vector>, written: nat, shards: seq<Shard>, added: seq<(int, Vector)>, id: int,
                 vector: Vector)
    requires Consistent(files, given, run, number, ids, vectors, written, shards, added)
    ensures Consistent(files, given + {(id, vector)}, run, number, ids + [id], vectors + [vector], written, shards,
      added + [(id, vector)])
  {
    hide OnDisk, Flat, NumberedUpTo;
    assert Zip(ids + [id], vectors + [vector]) == Zip(ids, vectors) + [(id, vector)];
    MoreGiven(files, given, (id, vector));
    hide Sound;
  }

  lemma MoreGiven(files: map<Path, File>, given: set<(int, Vector)>, e: (int, Vector))
    requires Sound(files, given)
    ensures Sound(files, given + {e})
  {
    hide MatrixOf, KeptRow;
    forall name {:trigger IdsOf(name)} | IdsOf(name) in files
      ensures Complete(files, given + {e}, name)
    {
      var ids, rows := files[IdsOf(name)].ids, MatrixOf(files[VectorsOf(name)].npy).value;
      forall k | 0 <= k < |ids|
        ensures RowGiven(given + {e}, ids[k], rows[k])
      {
        assert RowGiven(given, ids[k], rows[k]);
        var v :| (ids[k], v) in given && rows[k] == KeptRow(v, true);
        assert (ids[k], v) in given + {e};
      }
    }
  }

  /** A number spent on nothing leaves a gap and no more. */
  lemma Renumbered(files: map<Path, File>, given: set<(int, Vector)>, run: int, number: nat, ids: seq<int>,
                   vectors: seq<Vector>, written: nat, shards: seq<Shard>, added: seq<(int, Vector)>)
    requires number > 0 && Consistent(files, given, run, number - 1, ids, vectors, written, shards, added)
    ensures Consistent(files, given, run, number, ids, vectors, written, shards, added)
  {
    hide Sound, OnDisk, Flat, Zip;
  }

  /** Vectors without ids leave the writer's account as it was. */
  lemma VectorsAlone(files: map<Path, File>, given: set<(int, Vector)>, run: int, number: nat, ids: seq<int>,
                     vectors: seq<Vector>, written: nat, shards: seq<Shard>, added: seq<(int, Vector)>, npy: Npy)
    requires number > 0 && Consistent(files, given, run, number - 1, ids, vectors, written, shards, added)
    ensures Consistent(files[VectorsOf(Name(run, number)) := Vectors(npy)], given, run, number, ids, vectors, written,
      shards, added)
  {
    hide Sound, Flat, Zip, Written;
    var name := Name(run, number);
    var after := files[VectorsOf(name) := Vectors(npy)];
    NextFree(files, given, run, number - 1, ids, vectors, written, shards, added);
    VectorsStaySound(files, given, name, npy);
    forall s | s in shards
      ensures OnDisk(after, s)
    {
      assert OnDisk(files, s);
    }
    hide OnDisk;
  }

  lemma RowsGiven(files: map<Path, File>, given: set<(int, Vector)>, run: int, number: nat, ids: seq<int>,
                  vectors: seq<Vector>, written: nat, shards: seq<Shard>, added: seq<(int, Vector)>)
    requires Consistent(files, given, run, number, ids, vectors, written, shards, added)
    ensures |ids| == |vectors| && forall k :: 0 <= k < |vectors| ==> (ids[k], vectors[k]) in given
  {
    hide Sound, OnDisk, NumberedUpTo;
    forall k | 0 <= k < |vectors|
      ensures (ids[k], vectors[k]) in given
    {
      assert added[|Flat(shards)| + k] == Zip(ids, vectors)[k];
      assert (ids[k], vectors[k]) in added;
    }
  }

  /** With both files there, the buffer's rows have become a shard's. */
  lemma ShardAdded(files: map<Path, File>, given: set<(int, Vector)>, run: int, number: nat, ids: seq<int>,
                   vectors: seq<Vector>, written: nat, shards: seq<Shard>, added: seq<(int, Vector)>)
    requires Consistent(files, given, run, number, ids, vectors, written, shards, added)
    requires IdsOf(Name(run, number)) !in files && VectorsOf(Name(run, number)) in files
    requires files[VectorsOf(Name(run, number))] == Vectors(Written(vectors, DIM, true))
    requires Sound(files[IdsOf(Name(run, number)) := Ids(ids)], given)
    ensures Consistent(files[IdsOf(Name(run, number)) := Ids(ids)], given, run, number, [], [], written + |ids|,
                       shards + [Shard(Name(run, number), ids, vectors)], added)
  {
    hide Sound, Written;
    var name := Name(run, number);
    var after, more := files[IdsOf(name) := Ids(ids)], shards + [Shard(name, ids, vectors)];
    assert more[..|shards|] == shards;
    assert Flat(more) == Flat(shards) + Zip(ids, vectors);
    assert Zip([], []) == [];
    forall s | s in more
      ensures OnDisk(after, s) && s.name.run == run
    {
      if s in shards { assert OnDisk(files, s); } else { assert s == Shard(name, ids, vectors); }
    }
    hide OnDisk;
  }

  // ------------------------------------------------------------------------ listing and filling

  /** Every id a complete shard holds has its vector, as the shard's type keeps it, at the same row. */
  lemma HeldHasVector(files: map<Path, File>, given: set<(int, Vector)>, id: int)
    requires Sound(files, given) && Held(files, id)
    ensures exists name: Name, k: nat, v :: RowAt(files, name, k, id, v) && (id, v) in given
  {
    hide MatrixOf, KeptRow;
    var name :| HeldBy(files, id, name);
    assert Complete(files, given, name);
    var k: nat :| k < |files[IdsOf(name)].ids| && files[IdsOf(name)].ids[k] == id;
    var v :| (id, v) in given && MatrixOf(files[VectorsOf(name)].npy).value[k] == KeptRow(v, true);
    assert RowAt(files, name, k, id, v);
  }

  /** Row k of the shard is id's, and its vector is v's. */
  ghost predicate RowAt(files: map<Path, File>, name: Name, k: nat, id: int, v: Vector) {
    && IdsOf(name) in files && files[IdsOf(name)].Ids? && k < |files[IdsOf(name)].ids| &&
       files[IdsOf(name)].ids[k] == id
    && VectorsOf(name) in files && files[VectorsOf(name)].Vectors?
    && match MatrixOf(files[VectorsOf(name)].npy) { case Ok(rows) => k < |rows| &&
       rows[k] == KeptRow(v, true) case Err(_) => false }
  }

  /** What listing does with one entry from time t on: an ids file is looked up by its vectors, and read
    * when they are found. Only a read that goes wrong stops the listing; a lookup that goes wrong does not. */
  function EndOf(events: nat -> Event, files: map<Path, File>, p: Path, t: nat): Outcome
    requires p in files
  {
    if !p.IdsOf? then Finished
    else if events(t) == Dies then Crashed
    else if !Reads(events, files, p, t) then Finished
    else if events(t + 1) == Dies then Crashed
    else if events(t + 1) == Errors || !files[p].Ids? then Failed
    else Finished
  }

  /** The entry is an ids file whose vectors are looked up, found, and so it is read. */
  predicate Reads(events: nat -> Event, files: map<Path, File>, p: Path, t: nat) {
    p.IdsOf? && events(t) == Works && VectorsOf(p.name) in files
  }

  function Took(events: nat -> Event, files: map<Path, File>, p: Path, t: nat): nat {
    if !p.IdsOf? then 0 else if Reads(events, files, p, t) then 2 else 1
  }

  /** When the listing that begins at time t comes to the k-th entry. */
  function TimeOf(events: nat -> Event, files: map<Path, File>, order: seq<Path>, t: nat, k: nat): (u: nat)
    requires k <= |order|
    ensures t <= u
  {
    if k == 0 then t
    else
      var before := TimeOf(events, files, order, t, k - 1);
      before + Took(events, files, order[k - 1], before)
  }

  /** The k-th entry is an ids file whose vectors could not be looked up: the step returned an error. */
  predicate LookupFails(events: nat -> Event, files: map<Path, File>, order: seq<Path>, t: nat, k: nat)
    requires k < |order|
  {
    order[k].IdsOf? && events(TimeOf(events, files, order, t, k)) == Errors
  }

  /** The ids files passed over because of a failed lookup. */
  function Skipped(events: nat -> Event, files: map<Path, File>, order: seq<Path>, t: nat): set<Path> {
    set k | 0 <= k < |order| && LookupFails(events, files, order, t, k) :: order[k]
  }

  /** The directory's entries, each once, in whatever order they come. */
  ghost predicate Lists(files: map<Path, File>, order: seq<Path>) {
    NoRepeats(order) && forall p :: p in order <==> p in files
  }

  /** No entry before the n-th stops the listing. */
  ghost predicate Through(events: nat -> Event, files: map<Path, File>, order: seq<Path>, t: nat, n: nat)
    requires n <= |order| && forall p :: p in order ==> p in files
  {
    forall k {:trigger order[k]} :: 0 <= k < n ==>
      EndOf(events, files, order[k], TimeOf(events, files, order, t, k)) == Finished
  }

  /** The listing from time t stops at the k-th entry, in this way and at this time. */
  ghost predicate StopsAt(events: nat -> Event, files: map<Path, File>, order: seq<Path>, t: nat, k: nat, o: Outcome,
                          end: nat)
    requires k < |order| && forall p :: p in order ==> p in files
  {
    && Through(events, files, order, t, k) && o != Finished
    && o == EndOf(events, files, order[k], TimeOf(events, files, order, t, k))
    && end == TimeOf(events, files, order, t, k) + if events(TimeOf(events, files, order, t, k)) == Dies then 1 else 2
  }

  /** The listing begun at time t stops in this way and at this time: reading the directory, or at an entry. */
  ghost predicate Stopped(events: nat -> Event, files: map<Path, File>, order: seq<Path>, t: nat, o: Outcome, end: nat)
    requires forall p :: p in order ==> p in files
  {
    var first := t + 1;
    if events(t) == Works then exists k: nat :: k < |order| && StopsAt(events, files, order, first, k, o, end)
    else o == (if events(t) == Dies then Crashed else Failed) && end == t + 1
  }

  /** The ids of the complete shards, the directory's entries coming in the given order: exactly those of
    * the shards whose lookup did not fail. It stops only at a step that dies, at a directory that cannot
    * be read, or at an ids file that was found complete and cannot be read. */
  method ShardIDs(disk: Disk, order: seq<Path>) returns (o: Outcome, out: set<int>)
    requires Lists(disk.files, order)
    modifies disk`clock
    ensures disk.clock > old(disk.clock)
    ensures o == Finished <==>
      disk.events(old(disk.clock)) == Works && Through(disk.events, disk.files, order, old(disk.clock) + 1, |order|)
    ensures o != Finished ==> Stopped(disk.events, disk.files, order, old(disk.clock), o, disk.clock)
    ensures o == Crashed ==> disk.events(disk.clock - 1) == Dies
    ensures o == Failed ==>
      disk.events(disk.clock - 1) == Errors || exists p :: p in disk.files && p.IdsOf? && !disk.files[p].Ids?
    ensures forall id :: id in out ==> Held(disk.files, id)
    ensures o == Finished && Worked(disk.events, old(disk.clock), disk.clock) ==> forall id ::
      Held(disk.files, id) ==> id in out
    ensures o == Finished ==> disk.clock == TimeOf(disk.events, disk.files, order, old(disk.clock) + 1, |order|)
    ensures o == Finished ==> forall id ::
      id in out <==> Seen(disk.files, Skipped(disk.events, disk.files, order, old(disk.clock) + 1), id)
  {
    hide HeldBy, Held, Seen, NoRepeats, Took, EndOf, LookupFails, Skipped, Through, Stopped, TimeOf, ListedFrom, IdsAt,
      Worked;
    ghost var files, events, t := disk.files, disk.events, disk.clock + 1;
    out := {};
    var readDir := disk.Step();
    NoneListed(events, files, order, t);
    DirectoryStops(events, files, order, t - 1);
    if readDir == Errors { return Failed, out; }
    if readDir == Dies { return Crashed, out; }
    for i := 0 to |order|
      invariant disk.clock == TimeOf(events, files, order, t, i) && Through(events, files, order, t, i)
      invariant ListedFrom(events, files, order, t, i, out) && forall id :: id in out ==> Held(files, id)
    {
      var p := order[i];
      assert p in order;
      var ids;
      o, ids := ReadEntry(disk, p);
      EntryDone(events, files, order, t, i, o, disk.clock);
      if o != Finished { return; }
      ListedMore(events, files, order, t, i, out, ids);
      EntryHeld(files, p, ids);
      out := out + ids;
    }
    o := Finished;
    AllListed(events, files, order, t, out);
    AllHeldListed(events, files, order, t, disk.clock, out);
  }

  /** What one entry does, step by step: only an ids file takes steps; its vectors are looked up, and it is passed
    * over when that fails or they are missing; otherwise it is read, and a read that fails stops the listing. */
  ghost predicate EntryRight(events: nat -> Event, files: map<Path, File>, p: Path, t: nat, o: Outcome, ids: set<int>,
                             end: nat)
    requires p in files
  {
    var there := p.IdsOf? && VectorsOf(p.name) in files;
    && (p.VectorsOf? ==> o == Finished && ids == {} && end == t)
    && (p.IdsOf? && events(t) == Dies ==> o == Crashed && end == t + 1)
    && (p.IdsOf? && (events(t) == Errors || (events(t) == Works && !there)) ==>
          o == Finished && ids == {} && end == t + 1)
    && (there && events(t) == Works && events(t + 1) == Dies ==> o == Crashed && end == t + 2)
    && (there && events(t) == Works && (events(t + 1) == Errors || (events(t + 1) == Works && !files[p].Ids?)) ==>
          o == Failed && end == t + 2)
    && (there && events(t) == Works && events(t + 1) == Works && files[p].Ids? ==>
          o == Finished && end == t + 2 && ids == set id | id in files[p].ids)
  }

  /** One entry. A failed lookup is passed over; a failed read is not. */
  method ReadEntry(disk: Disk, p: Path) returns (o: Outcome, ids: set<int>)
    requires p in disk.files
    modifies disk`clock
    ensures o == EndOf(disk.events, disk.files, p, old(disk.clock))
    ensures o == Finished ==> disk.clock == old(disk.clock) + Took(disk.events, disk.files, p, old(disk.clock))
    ensures o == Finished ==> IdsAt(disk.files, p, Reads(disk.events, disk.files, p, old(disk.clock)), ids)
    ensures EntryRight(disk.events, disk.files, p, old(disk.clock), o, ids, disk.clock)
    ensures o == Failed ==> Reads(disk.events, disk.files, p, old(disk.clock)) && disk.clock == old(disk.clock) + 2
    ensures o == Crashed ==>
      disk.clock == old(disk.clock) + if disk.events(old(disk.clock)) == Dies then 1 else 2
  {
    o, ids := Finished, {};
    if !p.IdsOf? { return; }
    var stat := disk.Step();
    if stat == Dies { return Crashed, ids; }
    if stat == Errors || VectorsOf(p.name) !in disk.files { return; }
    var read := disk.Step();
    if read == Dies { return Crashed, ids; }
    if read == Errors || !disk.files[p].Ids? { return Failed, ids; }
    ids := set id | id in disk.files[p].ids;
  }

  /** The ids an entry gives: its own when it is read, none when it is not. */
  ghost predicate IdsAt(files: map<Path, File>, p: Path, read: bool, ids: set<int>)
    requires p in files
  {
    if read then files[p].Ids? && forall id :: id in ids <==> id in files[p].ids else ids == {}
  }

  /** What is listed for an entry its shard holds. */
  lemma EntryHeld(files: map<Path, File>, p: Path, ids: set<int>)
    requires p in files && (ids == {} || (p.IdsOf? && VectorsOf(p.name) in files && files[p].Ids? &&
      ids == set id | id in files[p].ids))
    ensures forall id :: id in ids ==> Held(files, id)
  {
    forall id | id in ids
      ensures Held(files, id)
    {
      assert HeldBy(files, id, p.name);
    }
  }

  /** When every step worked, everything held is listed. */
  lemma AllHeldListed(events: nat -> Event, files: map<Path, File>, order: seq<Path>, t: nat, end: nat, out: set<int>)
    requires t > 0 && (forall p :: p in order ==> p in files) && end == TimeOf(events, files, order, t, |order|)
    requires forall id :: id in out <==> Seen(files, Skipped(events, files, order, t), id)
    ensures Worked(events, t - 1, end) ==> forall id :: Held(files, id) ==> id in out
  {
    if Worked(events, t - 1, end) {
      NoLookupFails(events, files, order, t, end);
      ListsAllExactly(files, {});
      assert Spared(files, {});
    }
  }

  /** Some complete shard not among these entries holds id. */
  ghost predicate Seen(files: map<Path, File>, skipped: set<Path>, id: int) {
    exists name :: HeldBy(files, id, name) && IdsOf(name) !in skipped
  }

  /** The ids read from the first n entries. */
  ghost predicate ListedFrom(events: nat -> Event, files: map<Path, File>, order: seq<Path>, t: nat, n: nat,
                             out: set<int>)
    requires n <= |order|
  {
    forall id :: id in out <==> exists k :: 0 <= k < n && Gives(events, files, order, t, k, id)
  }

  ghost predicate Gives(events: nat -> Event, files: map<Path, File>, order: seq<Path>, t: nat, k: nat, id: int)
    requires k < |order|
  {
    && Reads(events, files, order[k], TimeOf(events, files, order, t, k))
    && order[k] in files && files[order[k]].Ids? && id in files[order[k]].ids
  }

  lemma NoneListed(events: nat -> Event, files: map<Path, File>, order: seq<Path>, t: nat)
    requires forall p :: p in order ==> p in files
    ensures ListedFrom(events, files, order, t, 0, {}) && Through(events, files, order, t, 0)
    ensures TimeOf(events, files, order, t, 0) == t
  {}

  lemma DirectoryStops(events: nat -> Event, files: map<Path, File>, order: seq<Path>, t: nat)
    requires forall p :: p in order ==> p in files
    ensures events(t) == Errors ==> Stopped(events, files, order, t, Failed, t + 1)
    ensures events(t) == Dies ==> Stopped(events, files, order, t, Crashed, t + 1)
  {}

  /** After the i-th entry the listing goes on or has stopped there. */
  lemma EntryDone(events: nat -> Event, files: map<Path, File>, order: seq<Path>, t: nat, i: nat, o: Outcome, end: nat)
    requires t > 0 && i < |order| && (forall p :: p in order ==> p in files) && Through(events, files, order, t, i)
    requires order[i] in files && events(t - 1) == Works
    requires var u := TimeOf(events, files, order, t, i);
      o == EndOf(events, files, order[i], u) &&
      end == u + if o == Finished then Took(events, files, order[i], u) else if events(u) == Dies then 1 else 2
    ensures o == Finished ==>
      Through(events, files, order, t, i + 1) && end == TimeOf(events, files, order, t, i + 1)
    ensures o != Finished ==>
      Stopped(events, files, order, t - 1, o, end) && !Through(events, files, order, t, |order|)
  {
    hide EndOf, Took;
    if o != Finished {
      assert StopsAt(events, files, order, t, i, o, end);
      assert EndOf(events, files, order[i], TimeOf(events, files, order, t, i)) != Finished;
    }
  }

  lemma ListedMore(events: nat -> Event, files: map<Path, File>, order: seq<Path>, t: nat, n: nat, out: set<int>,
                   ids: set<int>)
    requires n < |order| && order[n] in files && ListedFrom(events, files, order, t, n, out)
    requires IdsAt(files, order[n], Reads(events, files, order[n], TimeOf(events, files, order, t, n)), ids)
    ensures ListedFrom(events, files, order, t, n + 1, out + ids)
  {
    hide TimeOf, Reads;
    forall id
      ensures id in out + ids <==> exists k :: 0 <= k < n + 1 && Gives(events, files, order, t, k, id)
    {
      if id in ids { assert Gives(events, files, order, t, n, id); }
    }
  }

  /** A listing that came through gave the ids of every complete shard but the skipped ones. */
  lemma AllListed(events: nat -> Event, files: map<Path, File>, order: seq<Path>, t: nat, out: set<int>)
    requires Lists(files, order) && Through(events, files, order, t, |order|)
    requires ListedFrom(events, files, order, t, |order|, out)
    ensures forall id :: id in out <==> Seen(files, Skipped(events, files, order, t), id)
  {
    forall id
      ensures id in out <==> Seen(files, Skipped(events, files, order, t), id)
    {
      if k :| 0 <= k < |order| && Gives(events, files, order, t, k, id) {
        NotSkipped(events, files, order, t, k);
        assert HeldBy(files, id, order[k].name);
      }
      if Seen(files, Skipped(events, files, order, t), id) {
        var name :| HeldBy(files, id, name) && IdsOf(name) !in Skipped(events, files, order, t);
        var k :| 0 <= k < |order| && order[k] == IdsOf(name);
        assert !LookupFails(events, files, order, t, k);
        assert EndOf(events, files, order[k], TimeOf(events, files, order, t, k)) == Finished;
        assert Gives(events, files, order, t, k, id);
      }
    }
  }

  lemma NotSkipped(events: nat -> Event, files: map<Path, File>, order: seq<Path>, t: nat, k: nat)
    requires NoRepeats(order) && k < |order| && Reads(events, files, order[k], TimeOf(events, files, order, t, k))
    ensures order[k] !in Skipped(events, files, order, t)
  {
    hide TimeOf;
  }

  /** Every id of a shard whose lookup failed is also in one that was read. */
  ghost predicate Spared(files: map<Path, File>, skipped: set<Path>) {
    forall name, id :: IdsOf(name) in skipped && HeldBy(files, id, name) ==> Seen(files, skipped, id)
  }

  /** A listing has all that is held if and only if each id of a shard whose lookup failed is spared. What
    * it has is held always. */
  lemma ListsAllExactly(files: map<Path, File>, skipped: set<Path>)
    ensures forall id :: Seen(files, skipped, id) ==> Held(files, id)
    ensures (forall id :: Seen(files, skipped, id) <==> Held(files, id)) <==> Spared(files, skipped)
  {
    hide HeldBy;
    forall id | Seen(files, skipped, id)
      ensures Held(files, id)
    {
      var name :| HeldBy(files, id, name) && IdsOf(name) !in skipped;
    }
    if Spared(files, skipped) {
      forall id | Held(files, id)
        ensures Seen(files, skipped, id)
      {
        var name :| HeldBy(files, id, name);
        if IdsOf(name) !in skipped { assert Seen(files, skipped, id); }
      }
    }
    if forall id :: Seen(files, skipped, id) <==> Held(files, id) {
      forall name, id | IdsOf(name) in skipped && HeldBy(files, id, name)
        ensures Seen(files, skipped, id)
      {
        assert Held(files, id);
      }
    }
  }

  /** When every step works, no lookup fails. */
  lemma NoLookupFails(events: nat -> Event, files: map<Path, File>, order: seq<Path>, t: nat, end: nat)
    requires forall p :: p in order ==> p in files
    requires Worked(events, t, end) && end == TimeOf(events, files, order, t, |order|)
    ensures Skipped(events, files, order, t) == {}
  {
    hide EndOf;
    forall k | 0 <= k < |order|
      ensures !LookupFails(events, files, order, t, k)
    {
      if order[k].IdsOf? {
        assert Took(events, files, order[k], TimeOf(events, files, order, t, k)) > 0;
        assert TimeOf(events, files, order, t, k) < TimeOf(events, files, order, t, k + 1);
        TimesRise(events, files, order, t, k + 1, |order|);
      }
    }
  }

  lemma {:induction false} TimesRise(events: nat -> Event, files: map<Path, File>, order: seq<Path>, t: nat, j: nat,
                                     k: nat)
    requires j <= k <= |order|
    ensures TimeOf(events, files, order, t, j) <= TimeOf(events, files, order, t, k)
  {
    if j < k { TimesRise(events, files, order, t, j, k - 1); }
  }

  lemma NoneSound(files: map<Path, File>)
    requires forall p :: p in files ==> p.VectorsOf?
    ensures forall given :: Sound(files, given)
  {}

  const LOST_FILES := [IdsOf(Name(1, 1)), VectorsOf(Name(1, 1))]

  /** The second step, the lookup of the first entry, returns an error; every other step works. */
  function SecondFails(t: nat): Event { if t == 1 then Errors else Works }

  /** One complete shard, as a writer leaves it, whose lookup fails: the listing succeeds, empty, though the
    * shard's id is held. */
  lemma HeldYetUnlisted(v: Vector)
    requires |v| == DIM
    ensures var vectors := map[VectorsOf(Name(1, 1)) := Vectors(Written([v], DIM, true))];
            var files := vectors[IdsOf(Name(1, 1)) := Ids([7])];
            && Sound(files, {(7, v)}) && Lists(files, LOST_FILES) && Held(files, 7)
            && SecondFails(0) == Works && Through(SecondFails, files, LOST_FILES, 1, |LOST_FILES|)
            && (forall id :: !Seen(files, Skipped(SecondFails, files, LOST_FILES, 1), id))
            && Lacking(files, [7]) == 0 && Unseen(files, Skipped(SecondFails, files, LOST_FILES, 1), [7]) == 1
  {
    var n := Name(1, 1);
    var vectors := map[VectorsOf(n) := Vectors(Written([v], DIM, true))];
    var files := vectors[IdsOf(n) := Ids([7])];
    hide Written, Sound, MatrixOf, RowGiven;
    NoneSound(vectors);
    IdsStaySound(vectors, {(7, v)}, n, [7], [v]);
    assert HeldBy(files, 7, n);
    assert TimeOf(SecondFails, files, LOST_FILES, 1, 0) == 1;
    assert LookupFails(SecondFails, files, LOST_FILES, 1, 0);
    var skipped := Skipped(SecondFails, files, LOST_FILES, 1);
    assert LOST_FILES[0] in skipped;
    assert forall name :: IdsOf(name) in files ==> IdsOf(name) in skipped;
    assert [7][..0] == [];
  }

  lemma FirstTime(s: seq<int>, k: nat)
    requires k < |s|
    ensures s[k] in s && (NoRepeats(s) ==> s[k] !in s[..k])
  {}

  /** The query for one page: each id of the page that the table has, once. */
  method LoadVectors(disk: Disk, db: map<int, Vector>, page: seq<int>)
    returns (ok: bool, ids: seq<int>, vectors: seq<Vector>)
    modifies disk`clock
    ensures disk.clock == old(disk.clock) + 1 && (ok <==> disk.events(old(disk.clock)) == Works)
    ensures |ids| == |vectors| && forall k :: 0 <= k < |ids| ==> ids[k] in db && vectors[k] == db[ids[k]]
    ensures |ids| == |page| ==> ids == page
    ensures ok && NoRepeats(page) && (forall x :: x in page ==> x in db) ==> ids == page
  {
    ids, vectors := [], [];
    var query := disk.Step();
    ok := query == Works;
    if !ok { return; }
    for k := 0 to |page|
      invariant |ids| == |vectors| <= k && disk.clock == old(disk.clock) + 1
      invariant forall j :: 0 <= j < |ids| ==> ids[j] in db && vectors[j] == db[ids[j]]
      invariant |ids| == k ==> ids == page[..k]
      invariant NoRepeats(page) && (forall x :: x in page ==> x in db) ==> ids == page[..k]
    {
      var id := page[k];
      assert id in page && page[..k + 1] == page[..k] + [id];
      FirstTime(page, k);
      if id in db && id !in ids {
        ids, vectors := ids + [id], vectors + [db[id]];
      }
    }
  }

  /** Every row added is held once the buffer has been written. */
  lemma {:induction false} FlatIsHeld(files: map<Path, File>, shards: seq<Shard>, e: (int, Vector))
    requires Even(shards) && (forall s: Shard :: s in shards ==> OnDisk(files, s)) && e in Flat(shards)
    ensures Held(files, e.0)
  {
    var last := shards[|shards| - 1];
    if e in Zip(last.ids, last.vectors) {
      assert last in shards && OnDisk(files, last);
      assert HeldBy(files, e.0, last.name);
    } else {
      FlatIsHeld(files, shards[..|shards| - 1], e);
    }
  }

  /** The wanted ids not listed, in order. */
  method Missing(have: set<int>, want: seq<int>) returns (missing: seq<int>)
    ensures |missing| == Unlisted(have, want)
    ensures forall x: int :: x in missing <==> x in want && x !in have
    ensures NoRepeats(want) ==> NoRepeats(missing)
  {
    missing := [];
    assert want[..0] == [];
    for k := 0 to |want|
      invariant |missing| == Unlisted(have, want[..k])
      invariant forall x: int :: x in missing <==> x in want[..k] && x !in have
      invariant NoRepeats(want) ==> NoRepeats(missing)
    {
      FirstTime(want, k);
      assert want[..k + 1] == want[..k] + [want[k]] && want[..k + 1][..k] == want[..k];
      if want[k] !in have { missing := missing + [want[k]]; }
    }
    assert want[..|want|] == want;
  }

  /** When it succeeds, a complete shard holds every wanted id; whatever happens, the directory is sound
    * and nothing that was in it changes. The count is of the wanted ids that no shard holds but those whose
    * lookup failed. `order` is the order the directory's entries come in. */
  method FillShards(disk: Disk, db: map<int, Vector>, want: seq<int>, run: int, order: seq<Path>)
    returns (o: Outcome, count: nat)
    requires Sound(disk.files, disk.given) && Lists(disk.files, order)
    requires forall p {:trigger p in disk.files} :: p in disk.files ==> p.name.run != run
    modifies disk
    ensures Sound(disk.files, disk.given) && OthersKept(old(disk.files), disk.files, run)
    ensures disk.clock >= old(disk.clock)
    ensures o == Finished ==> forall id: int :: id in want ==> Held(disk.files, id)
    ensures o == Finished ==>
      count == Unseen(old(disk.files), Skipped(disk.events, old(disk.files), order, old(disk.clock) + 1), want)
    ensures o == Finished && Worked(disk.events, old(disk.clock), disk.clock) ==>
      count == Lacking(old(disk.files), want)
    ensures Steady(disk.events) && Fillable(db, want) ==> o == Finished
  {
    hide Sound, OthersKept, Held, Consistent, Lacking, Unlisted, Unseen, Seen, Spared, Worked, Skipped, TimeOf, Through,
      StopsAt, Stopped, EndOf, NoRepeats, Lists, Steady, Fillable;
    count := 0;
    ghost var files, t := disk.files, disk.clock + 1;
    var have;
    o, have := ShardIDs(disk, order);
    AllKept(disk.files, run);
    SteadyListing(disk.events, files, disk.given, order, t);
    if o != Finished { return o, 0; }
    ghost var read := disk.clock;
    ghost var skipped := Skipped(disk.events, files, order, t);
    ListsAllExactly(files, skipped);
    UnseenAreUnlisted(files, skipped, have, want);
    var missing := Missing(have, want);
    if |missing| == 0 {
      forall id | id in want
        ensures Held(files, id)
      {
        assert id !in missing;
      }
      AllWorked(disk.events, t, read, disk.clock, files, order, want);
      return Finished, 0;
    }
    SortIntsKeeps(missing);
    missing := SortInts(missing);
    FillableStill(db, want, missing);
    o, count := WriteMissing(disk, db, missing, run);
    if o != Finished { return o, 0; }
    AllWorked(disk.events, t, read, disk.clock, files, order, want);
    WantedHeld(files, disk.files, run, want, missing);
  }

  /** The missing ids go to new shards, a page at a time. */
  method WriteMissing(disk: Disk, db: map<int, Vector>, missing: seq<int>, run: int) returns (o: Outcome, count: nat)
    requires Sound(disk.files, disk.given)
    requires forall p {:trigger p in disk.files} :: p in disk.files ==> p.name.run != run
    modifies disk
    ensures Sound(disk.files, disk.given) && OthersKept(old(disk.files), disk.files, run)
    ensures disk.clock >= old(disk.clock)
    ensures o == Finished ==> count == |missing| && forall x: int :: x in missing ==> Held(disk.files, x)
    ensures Steady(disk.events) && Fillable(db, missing) ==> o == Finished
  {
    hide Sound, OthersKept, Held, Consistent;
    count := 0;
    ghost var first := disk.files;
    var w := new ShardWriter(disk, 0x10_0000, run);
    o := AddAll(w, db, missing);
    if o != Finished { return; }
    ghost var before := disk.files;
    o := w.Flush();
    KeptBoth(first, before, disk.files, run);
    if o == Failed {
      NoMisfits(w.disk.files, w.disk.given, w.run, w.number, w.ids, w.vectors, w.written, w.shards, w.added);
      AddedFit(db, missing, w.added);
    }
    if o != Finished { return; }
    count := w.written;
    FilledAll(disk.files, disk.given, run, w.number, w.vectors, w.written, w.shards, w.added);
    forall x: int | x in missing
      ensures Held(disk.files, x)
    {
      var j :| 0 <= j < |missing| && missing[j] == x;
      assert w.added[j] in w.added;
    }
  }

  lemma SteadyListing(events: nat -> Event, files: map<Path, File>, given: set<(int, Vector)>, order: seq<Path>, t: nat)
    requires t > 0 && Sound(files, given) && Lists(files, order)
    ensures Steady(events) ==> events(t - 1) == Works && Through(events, files, order, t, |order|)
  {
    if Steady(events) {
      forall k {:trigger order[k]} | 0 <= k < |order|
        ensures EndOf(events, files, order[k], TimeOf(events, files, order, t, k)) == Finished
      {
        assert order[k] in order;
        if order[k].IdsOf? { assert Complete(files, given, order[k].name); }
      }
    }
  }

  lemma AllWorked(events: nat -> Event, t: nat, read: nat, end: nat, files: map<Path, File>, order: seq<Path>,
                  want: seq<int>)
    requires t > 0 && read <= end && Lists(files, order) && read == TimeOf(events, files, order, t, |order|)
    ensures Worked(events, t - 1, end) ==> Unseen(files, Skipped(events, files, order, t), want) == Lacking(files, want)
  {
    if Worked(events, t - 1, end) {
      NoLookupFails(events, files, order, t, read);
      LackingAtMost(files, {}, want);
    }
  }

  /** Counting the ids no shard but the skipped ones holds gives at least those not held at all, and no more
    * if and only if no wanted id is held by skipped shards alone. */
  lemma {:induction false} LackingAtMost(files: map<Path, File>, skipped: set<Path>, want: seq<int>)
    ensures Lacking(files, want) <= Unseen(files, skipped, want)
    ensures Lacking(files, want) == Unseen(files, skipped, want) <==>
            forall x: int :: x in want && Held(files, x) ==> Seen(files, skipped, x)
    ensures skipped == {} ==> Lacking(files, want) == Unseen(files, skipped, want)
  {
    ListsAllExactly(files, skipped);
    if skipped == {} { assert Spared(files, skipped); }
    hide Held, Seen, Spared;
    if want != [] {
      var rest, last := want[..|want| - 1], want[|want| - 1];
      assert want == rest + [last];
      LackingAtMost(files, skipped, rest);
    }
  }

  lemma {:induction false} UnseenAreUnlisted(files: map<Path, File>, skipped: set<Path>, have: set<int>, want: seq<int>)
    requires forall id :: id in have <==> Seen(files, skipped, id)
    ensures Unlisted(have, want) == Unseen(files, skipped, want)
  {
    hide Seen;
    if want != [] { UnseenAreUnlisted(files, skipped, have, want[..|want| - 1]); }
  }

  /** How many of the wanted ids are in no complete shard outside the skipped ones. */
  ghost function Unseen(files: map<Path, File>, skipped: set<Path>, want: seq<int>): nat {
    if want == [] then 0 else
      Unseen(files, skipped, want[..|want| - 1]) + if Seen(files, skipped, want[|want| - 1]) then 0 else 1
  }

  /** A wanted id was held before, or was missing and has been added. */
  lemma WantedHeld(before: map<Path, File>, after: map<Path, File>, run: int, want: seq<int>, missing: seq<int>)
    requires OthersKept(before, after, run) && forall p {:trigger p in before} :: p in before ==> p.name.run != run
    requires forall x: int :: x in want && !Held(before, x) ==> x in missing
    requires forall x: int :: x in missing ==> Held(after, x)
    ensures forall x: int :: x in want ==> Held(after, x)
  {
    hide Held, OthersKept;
    forall x: int | x in want
      ensures Held(after, x)
    {
      if Held(before, x) { StillHeld(before, after, run, x); }
    }
  }

  /** Nothing goes wrong at any step. */
  ghost predicate Steady(events: nat -> Event) {
    forall t :: events(t) == Works
  }

  /** The wanted ids are there, once each, with vectors of the shards' dimension. */
  ghost predicate Fillable(db: map<int, Vector>, want: seq<int>) {
    NoRepeats(want) && (forall x: int :: x in want ==> x in db && |db[x]| == 512)
  }

  lemma FillableStill(db: map<int, Vector>, want: seq<int>, missing: seq<int>)
    requires (NoRepeats(want) ==> NoRepeats(missing)) && forall x: int :: x in missing ==> x in want
    ensures Fillable(db, want) ==> Fillable(db, missing)
  {
    hide NoRepeats;
  }

  /** When everything added has the right length, so has everything buffered. */
  lemma NoMisfits(files: map<Path, File>, given: set<(int, Vector)>, run: int, number: nat, ids: seq<int>,
                  vectors: seq<Vector>, written: nat, shards: seq<Shard>, added: seq<(int, Vector)>)
    requires Consistent(files, given, run, number, ids, vectors, written, shards, added)
    ensures (forall k :: 0 <= k < |added| ==> |added[k].1| == DIM) ==> !Misfits(vectors)
  {
    hide Sound, OnDisk, NumberedUpTo;
    forall k | 0 <= k < |vectors|
      ensures added[|Flat(shards)| + k] == (ids[k], vectors[k])
    {
      assert Zip(ids, vectors)[k] == (ids[k], vectors[k]);
    }
  }

  lemma AddedFit(db: map<int, Vector>, missing: seq<int>, added: seq<(int, Vector)>)
    requires |added| <= |missing|
    requires forall k :: 0 <= k < |added| ==> missing[k] in db && added[k] == (missing[k], db[missing[k]])
    ensures Fillable(db, missing) ==> forall k :: 0 <= k < |added| ==> |added[k].1| == DIM
  {
    if Fillable(db, missing) {
      forall k | 0 <= k < |added|
        ensures |added[k].1| == DIM
      {
        var x := missing[k];
        assert x in missing && |db[x]| == DIM;
      }
    }
  }

  /** How many of the wanted ids no shard holds. */
  ghost function Lacking(files: map<Path, File>, want: seq<int>): nat {
    if want == [] then 0 else
      Lacking(files, want[..|want| - 1]) + if Held(files, want[|want| - 1]) then 0 else 1
  }

  /** How many of the wanted ids are not listed. */
  ghost function Unlisted(listed: set<int>, want: seq<int>): nat {
    if want == [] then 0 else
      Unlisted(listed, want[..|want| - 1]) + if want[|want| - 1] in listed then 0 else 1
  }

  const PAGE: nat := 5000

  /** The pages: an id that is gone, or wanted twice in a page, is an error. */
  method AddAll(w: ShardWriter, db: map<int, Vector>, missing: seq<int>) returns (o: Outcome)
    requires w.Valid() && w.added == []
    modifies w, w.disk
    ensures Sound(w.disk.files, w.disk.given) && OthersKept(old(w.disk.files), w.disk.files, w.run)
    ensures w.disk.clock >= old(w.disk.clock)
    ensures o == Finished ==> w.Valid() && |w.added| == |missing|
    ensures o == Finished ==> forall k ::
      0 <= k < |missing| ==> missing[k] in db && w.added[k] == (missing[k], db[missing[k]])
    ensures Steady(w.disk.events) && Fillable(db, missing) ==> o == Finished
  {
    hide Sound, OthersKept, Consistent;
    ConsistentSound(w.disk.files, w.disk.given, w.run, w.number, w.ids, w.vectors, w.written, w.shards, w.added);
    AllKept(w.disk.files, w.run);
    var start := 0;
    while start < |missing|
      invariant start <= |missing| && w.Valid() && Sound(w.disk.files, w.disk.given)
      invariant OthersKept(old(w.disk.files), w.disk.files, w.run) && w.disk.clock >= old(w.disk.clock)
      invariant |w.added| == start
      invariant forall k :: 0 <= k < start ==> missing[k] in db && w.added[k] == (missing[k], db[missing[k]])
    {
      var end := if start + PAGE < |missing| then start + PAGE else |missing|;
      ghost var page := missing[start..end];
      assert forall k :: 0 <= k < |page| ==> page[k] == missing[start + k];
      var ok, ids, vectors := LoadVectors(w.disk, db, missing[start..end]);
      if !ok || |ids| != end - start { return Failed; }
      for i := 0 to |ids|
        invariant w.Valid() && Sound(w.disk.files, w.disk.given)
        invariant OthersKept(old(w.disk.files), w.disk.files, w.run) && w.disk.clock >= old(w.disk.clock)
        invariant |w.added| == start + i
        invariant forall k :: 0 <= k < start + i ==> missing[k] in db && w.added[k] == (missing[k], db[missing[k]])
      {
        ghost var before := w.disk.files;
        o := w.Add(ids[i], vectors[i]);
        KeptBoth(old(w.disk.files), before, w.disk.files, w.run);
        assert ids[i] == missing[start + i];
        if o == Failed {
          NoMisfits(w.disk.files, w.disk.given, w.run, w.number, w.ids, w.vectors, w.written, w.shards, w.added);
          AddedFit(db, missing, w.added);
        }
        if o != Finished { return; }
      }
      start := end;
    }
    o := Finished;
  }

  lemma KeptBoth(a: map<Path, File>, b: map<Path, File>, c: map<Path, File>, run: int)
    requires OthersKept(a, b, run) && OthersKept(b, c, run)
    ensures OthersKept(a, c, run)
  {}

  lemma FilledAll(files: map<Path, File>, given: set<(int, Vector)>, run: int, number: nat, vectors: seq<Vector>,
                  written: nat, shards: seq<Shard>, added: seq<(int, Vector)>)
    requires Consistent(files, given, run, number, [], vectors, written, shards, added)
    ensures written == |added| && forall e :: e in added ==> Held(files, e.0)
  {
    hide Sound, NumberedUpTo, Held;
    assert Zip([], vectors) == [];
    forall e | e in added
      ensures Held(files, e.0)
    {
      FlatIsHeld(files, shards, e);
    }
  }

  lemma StillHeld(before: map<Path, File>, after: map<Path, File>, run: int, id: int)
    requires OthersKept(before, after, run) && Held(before, id)
    requires forall p {:trigger p in before} :: p in before ==> p.name.run != run
    ensures Held(after, id)
  {
    var name :| HeldBy(before, id, name);
    assert HeldBy(after, id, name);
  }
}
