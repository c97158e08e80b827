/** The release mirror: copies the files of a publication to an object bucket,
    the index last. Any number of runs may overlap, die at any request and leave
    an upload in flight that lands later. */
module Mirror {
  import opened Common

  const INDEX := "artifact-index.json"
  const INDEX_MAX := 16384
  const SCHEMA := "techstack.artifact-index/v1"

  datatype Entry = Entry(sha256: string, size: int, filename: string)
  datatype Index = Index(schema: string, version: string, artifacts: seq<Entry>)

  /** techstack/guard-v<version>/sha256/<digest>/<name> */
  datatype Key = Key(version: string, digest: string, name: string)
  datatype Object = Object(body: string, checksum: Option<string>)
  type Objects = map<Key, Object>

  /** A file to mirror: its digest is the one in its key. */
  datatype File = File(key: Key, size: int)

  /** The hash and the JSON decoder. */
  datatype World = World(sha: string -> string, parse: string -> Option<Index>)

  /** The hash is collision-free, and no index can name its own digest. */
  ghost predicate Hashing(w: World) {
    && (forall a, b :: w.sha(a) == w.sha(b) ==> a == b)
    && (forall raw: string, i: int | w.parse(raw).Some? && 0 <= i < |w.parse(raw).value.artifacts| ::
          w.parse(raw).value.artifacts[i].sha256 != w.sha(raw))
  }

  // ---------------------------------------------------------------- object keys

  const PREFIX := "techstack/guard-v"
  const MIDDLE := "/sha256/"

  function KeyText(k: Key): string {
    PREFIX + (k.version + (MIDDLE + (k.digest + ("/" + k.name))))
  }

  /** Distinct version, digest and name never share an object key. */
  lemma KeyTextInjective(a: Key, b: Key)
    requires '/' !in a.version && '/' !in b.version && '/' !in a.digest && '/' !in b.digest
    requires KeyText(a) == KeyText(b)
    ensures a == b
  {
    var da, db := a.digest + ("/" + a.name), b.digest + ("/" + b.name);
    Cancels(PREFIX, a.version + (MIDDLE + da), b.version + (MIDDLE + db));
    SplitsOnce('/', a.version, b.version, MIDDLE + da, MIDDLE + db);
    Cancels(MIDDLE, da, db);
    SplitsOnce('/', a.digest, b.digest, "/" + a.name, "/" + b.name);
    Cancels("/", a.name, b.name);
  }

  // ---------------------------------------------------------------- binding files to the index

  predicate IsHex(s: string) {
    forall i | 0 <= i < |s| :: '0' <= s[i] <= '9' || 'a' <= s[i] <= 'f'
  }

  function Dots(s: string): nat {
    if s == "" then 0 else Dots(s[..|s| - 1]) + if s[|s| - 1] == '.' then 1 else 0
  }

  /** Three runs of digits separated by dots. */
  predicate IsVersion(s: string) {
    && s != "" && s[0] != '.' && s[|s| - 1] != '.' && Dots(s) == 2
    && (forall i | 0 <= i < |s| :: s[i] == '.' || '0' <= s[i] <= '9')
    && (forall i | 0 <= i < |s| - 1 :: s[i] == '.' ==> s[i + 1] != '.')
  }

  predicate IsBase(name: string) {
    name == "/" || (name != "" && '/' !in name)
  }

  /** The entry is well formed and the directory holds exactly the bytes it describes. */
  predicate Admits(w: World, dir: map<string, string>, e: Entry) {
    && |e.sha256| == 64 && IsHex(e.sha256) && IsBase(e.filename) && e.size > 0
    && e.filename in dir && w.sha(dir[e.filename]) == e.sha256 && |dir[e.filename]| == e.size
  }

  predicate WellFormed(index: Index) {
    index.schema == SCHEMA && IsVersion(index.version) && 0 < |index.artifacts| <= 4
  }

  function FileOf(version: string, e: Entry): File {
    File(Key(version, e.sha256, e.filename), e.size)
  }

  /** The index a directory publishes, if every check on it passes. */
  function Publication(w: World, dir: map<string, string>): Option<Index> {
    if INDEX !in dir || |dir[INDEX]| > INDEX_MAX then None
    else
      var index := w.parse(dir[INDEX]);
      if index.Some? && WellFormed(index.value) && forall i | 0 <= i < |index.value.artifacts| :: Admits(w, dir, index.value.artifacts[i])
      then index else None
  }

  /** The files of a publication: its artifacts in order, then the index itself. */
  ghost predicate Lists(w: World, dir: map<string, string>, files: seq<File>) {
    var index := Publication(w, dir);
    && index.Some?
    && |files| == |index.value.artifacts| + 1
    && (forall i | 0 <= i < |files| - 1 :: files[i] == FileOf(index.value.version, index.value.artifacts[i]))
    && files[|files| - 1] == File(Key(index.value.version, w.sha(dir[INDEX]), INDEX), |dir[INDEX]|)
  }

  method ReleaseMirrorFiles(w: World, dir: map<string, string>) returns (files: Option<seq<File>>)
    ensures files.Some? <==> Publication(w, dir).Some?
    ensures files.Some? ==> Lists(w, dir, files.value)
  {
    if INDEX !in dir { return None; }
    var raw := dir[INDEX];
    if |raw| > INDEX_MAX { return None; }
    var decoded := w.parse(raw);
    if decoded.None? { return None; }
    var index := decoded.value;
    if !WellFormed(index) { return None; }
    var listed: seq<File> := [];
    for n := 0 to |index.artifacts|
      invariant |listed| == n
      invariant forall i | 0 <= i < n :: Admits(w, dir, index.artifacts[i]) && listed[i] == FileOf(index.version, index.artifacts[i])
    {
      if !Admits(w, dir, index.artifacts[n]) { return None; }
      listed := listed + [FileOf(index.version, index.artifacts[n])];
    }
    return Some(listed + [File(Key(index.version, w.sha(raw), INDEX), |raw|)]);
  }

  // ---------------------------------------------------------------- the bucket

  predicate Confirmed(objects: Objects, f: File) {
    f.key in objects && objects[f.key].checksum == Some(f.key.digest) && |objects[f.key].body| == f.size
  }

  /** The bucket's own rule for an upload of `body` carrying the file's checksum. */
  predicate Accepts(w: World, objects: Objects, f: File, body: string, conditional: bool) {
    w.sha(body) == f.key.digest && |body| == f.size && (conditional ==> f.key !in objects)
  }

  function Uploaded(objects: Objects, f: File, body: string): Objects {
    objects[f.key := Object(body, Some(f.key.digest))]
  }

  /** Every native checksum is the digest in its key and the hash of the bytes. */
  ghost predicate Sound(w: World, objects: Objects) {
    forall k | k in objects && objects[k].checksum.Some? ::
      objects[k].checksum.value == k.digest == w.sha(objects[k].body)
  }

  ghost predicate Names(w: World, objects: Objects, k: Key, e: Entry) {
    && k in objects && objects[k].checksum.Some? && k.name == INDEX && w.parse(objects[k].body).Some?
    && e in w.parse(objects[k].body).value.artifacts
  }

  /** An index in the bucket implies every object it names, with its size and checksum. */
  ghost predicate Complete(w: World, objects: Objects) {
    forall k, e | Names(w, objects, k, e) :: Confirmed(objects, FileOf(w.parse(objects[k].body).value.version, e))
  }

  /** A checksummed object is there for good, with the same bytes. */
  ghost predicate Keeps(before: Objects, after: Objects) {
    forall k | k in before && before[k].checksum.Some? :: k in after && after[k] == before[k]
  }

  /** What any writer may do to the bucket. */
  ghost predicate Evolves(w: World, before: Objects, after: Objects) {
    Keeps(before, after) && (Sound(w, before) ==> Sound(w, after)) && (Complete(w, before) ==> Complete(w, after))
  }

  /** An earlier bucket without native checksums is a sound start. */
  lemma LegacyBucketIsSound(w: World, objects: Objects)
    requires forall k | k in objects :: objects[k].checksum.None?
    ensures Sound(w, objects) && Complete(w, objects)
  {
  }

  lemma UploadKeeps(w: World, objects: Objects, f: File, body: string, conditional: bool)
    requires Hashing(w) && Sound(w, objects) && Accepts(w, objects, f, body, conditional)
    ensures Sound(w, Uploaded(objects, f, body)) && Keeps(objects, Uploaded(objects, f, body))
    ensures Confirmed(Uploaded(objects, f, body), f)
  {
  }

  /** Uploading file number `next` of a publication keeps every index complete once the files before it are confirmed. */
  lemma UploadCompletes(w: World, objects: Objects, dir: map<string, string>, files: seq<File>, next: nat, body: string, conditional: bool)
    requires Hashing(w) && Sound(w, objects) && Complete(w, objects) && Lists(w, dir, files) && next < |files|
    requires forall i | 0 <= i < next :: Confirmed(objects, files[i])
    requires Accepts(w, objects, files[next], body, conditional)
    ensures Complete(w, Uploaded(objects, files[next], body))
  {
  }

  // ---------------------------------------------------------------- overlapping runs

  /** Where a run stands with its current file. An upload in flight survives the run. */
  datatype Stage = Ready | InFlight(conditional: bool) | Landed

  datatype Run = Run(dir: map<string, string>, files: seq<File>, next: nat, stage: Stage, alive: bool)

  datatype State = State(objects: Objects, runs: seq<Run>)

  /** `body` is what the file on disk holds when its bytes are sent. */
  datatype Step =
    | Begin(dir: map<string, string>, files: seq<File>)
    | Head(run: nat)
    | Land(run: nat, body: string)
    | Readback(run: nat)
    | Die(run: nat)

  function Headed(objects: Objects, r: Run): Run
    requires r.next < |r.files|
  {
    var f := r.files[r.next];
    if f.key !in objects then r.(stage := InFlight(true))
    else if |objects[f.key].body| != f.size || (objects[f.key].checksum.Some? && objects[f.key].checksum.value != f.key.digest) then r.(alive := false)
    else if objects[f.key].checksum.Some? then r.(next := r.next + 1)
    else r.(stage := InFlight(false))
  }

  function Confirming(objects: Objects, r: Run): Run
    requires r.next < |r.files|
  {
    if Confirmed(objects, r.files[r.next]) then r.(next := r.next + 1, stage := Ready) else r.(alive := false)
  }

  ghost function Apply(w: World, s: State, step: Step): State {
    if step.Begin? then
      if Lists(w, step.dir, step.files) then s.(runs := s.runs + [Run(step.dir, step.files, 0, Ready, true)]) else s
    else if step.run >= |s.runs| then s
    else
      var r := s.runs[step.run];
      match step
      case Head(n) => if r.alive && r.stage.Ready? && r.next < |r.files| then s.(runs := s.runs[n := Headed(s.objects, r)]) else s
      case Land(n, body) =>
        if !r.stage.InFlight? || r.next >= |r.files| then s
        else if Accepts(w, s.objects, r.files[r.next], body, r.stage.conditional)
        then State(Uploaded(s.objects, r.files[r.next], body), s.runs[n := r.(stage := Landed)])
        else s.(runs := s.runs[n := r.(stage := Ready, alive := false)])
      case Readback(n) => if r.alive && r.stage.Landed? && r.next < |r.files| then s.(runs := s.runs[n := Confirming(s.objects, r)]) else s
      case Die(n) => s.(runs := s.runs[n := r.(alive := false)])
  }

  ghost function After(w: World, s: State, steps: seq<Step>): State {
    if steps == [] then s else Apply(w, After(w, s, steps[..|steps| - 1]), steps[|steps| - 1])
  }

  ghost predicate RunHolds(w: World, objects: Objects, r: Run) {
    && Lists(w, r.dir, r.files)
    && r.next <= |r.files|
    && (forall i | 0 <= i < r.next :: Confirmed(objects, r.files[i]))
  }

  ghost predicate Inv(w: World, s: State) {
    && Sound(w, s.objects) && Complete(w, s.objects)
    && (forall n | 0 <= n < |s.runs| :: RunHolds(w, s.objects, s.runs[n]))
  }

  lemma RunHoldsLater(w: World, before: Objects, after: Objects, r: Run)
    requires RunHolds(w, before, r) && Keeps(before, after)
    ensures RunHolds(w, after, r)
  {
  }

  lemma HeadKeepsRun(w: World, objects: Objects, r: Run)
    requires Sound(w, objects) && RunHolds(w, objects, r) && r.next < |r.files|
    ensures RunHolds(w, objects, Headed(objects, r)) && RunHolds(w, objects, Confirming(objects, r))
  {
  }

  lemma ReplacingOneRun(w: World, s: State, after: Objects, n: nat, r: Run)
    requires Inv(w, s) && n < |s.runs|
    requires Keeps(s.objects, after) && Sound(w, after) && Complete(w, after) && RunHolds(w, after, r)
    ensures Inv(w, State(after, s.runs[n := r]))
  {
  }

  lemma LandKeepsInv(w: World, s: State, n: nat, body: string)
    requires Hashing(w) && Inv(w, s) && n < |s.runs|
    ensures Inv(w, Apply(w, s, Land(n, body))) && Keeps(s.objects, Apply(w, s, Land(n, body)).objects)
  {
    var r := s.runs[n];
    if r.stage.InFlight? && r.next < |r.files| {
      var f, conditional := r.files[r.next], r.stage.conditional;
      if Accepts(w, s.objects, f, body, conditional) {
        var after := Uploaded(s.objects, f, body);
        UploadKeeps(w, s.objects, f, body, conditional);
        UploadCompletes(w, s.objects, r.dir, r.files, r.next, body, conditional);
        RunHoldsLater(w, s.objects, after, r);
        ReplacingOneRun(w, s, after, n, r.(stage := Landed));
      } else {
        ReplacingOneRun(w, s, s.objects, n, r.(stage := Ready, alive := false));
      }
    }
  }

  lemma HeadKeepsInv(w: World, s: State, n: nat)
    requires Inv(w, s) && n < |s.runs|
    ensures Inv(w, Apply(w, s, Head(n))) && Apply(w, s, Head(n)).objects == s.objects
  {
    var r := s.runs[n];
    if r.alive && r.stage.Ready? && r.next < |r.files| {
      HeadKeepsRun(w, s.objects, r);
      ReplacingOneRun(w, s, s.objects, n, Headed(s.objects, r));
    }
  }

  lemma ReadbackKeepsInv(w: World, s: State, n: nat)
    requires Inv(w, s) && n < |s.runs|
    ensures Inv(w, Apply(w, s, Readback(n))) && Apply(w, s, Readback(n)).objects == s.objects
  {
    var r := s.runs[n];
    if r.alive && r.stage.Landed? && r.next < |r.files| {
      HeadKeepsRun(w, s.objects, r);
      ReplacingOneRun(w, s, s.objects, n, Confirming(s.objects, r));
    }
  }

  lemma DieKeepsInv(w: World, s: State, n: nat)
    requires Inv(w, s) && n < |s.runs|
    ensures Inv(w, Apply(w, s, Die(n))) && Apply(w, s, Die(n)).objects == s.objects
  {
    ReplacingOneRun(w, s, s.objects, n, s.runs[n].(alive := false));
  }

  lemma BeginKeepsInv(w: World, s: State, step: Step)
    requires Inv(w, s) && step.Begin?
    ensures Inv(w, Apply(w, s, step)) && Apply(w, s, step).objects == s.objects
  {
  }

  lemma StepKeepsInv(w: World, s: State, step: Step)
    requires Hashing(w) && Inv(w, s)
    ensures Inv(w, Apply(w, s, step)) && Keeps(s.objects, Apply(w, s, step).objects)
  {
    if step.Begin? {
      BeginKeepsInv(w, s, step);
    } else if step.run < |s.runs| {
      match step
      case Head(n) => HeadKeepsInv(w, s, n);
      case Land(n, body) => LandKeepsInv(w, s, n, body);
      case Readback(n) => ReadbackKeepsInv(w, s, n);
      case Die(n) => DieKeepsInv(w, s, n);
    }
  }

  /** Under any number of overlapping and dying runs, every checksum is the digest in its key and every
      checksummed index names only objects that are already there. Each run's finished files are confirmed. */
  lemma {:induction false} BucketStaysSound(w: World, objects: Objects, steps: seq<Step>)
    requires Hashing(w) && Sound(w, objects) && Complete(w, objects)
    ensures Inv(w, After(w, State(objects, []), steps))
  {
    if steps != [] {
      BucketStaysSound(w, objects, steps[..|steps| - 1]);
      StepKeepsInv(w, After(w, State(objects, []), steps[..|steps| - 1]), steps[|steps| - 1]);
    }
  }

  /** From any reachable state on, a checksummed object never changes its bytes and never disappears. */
  lemma {:induction false} ChecksummedBytesNeverChange(w: World, s: State, steps: seq<Step>)
    requires Hashing(w) && Inv(w, s)
    ensures Inv(w, After(w, s, steps)) && Keeps(s.objects, After(w, s, steps).objects)
  {
    if steps != [] {
      ChecksummedBytesNeverChange(w, s, steps[..|steps| - 1]);
      StepKeepsInv(w, After(w, s, steps[..|steps| - 1]), steps[|steps| - 1]);
    }
  }

  // ---------------------------------------------------------------- rerunning a completed mirror

  /** Run `n` has no upload in flight and finds every one of its files already mirrored. */
  ghost predicate Rerun(s: State, n: nat) {
    n < |s.runs| && s.runs[n].stage.Ready? && forall i | 0 <= i < |s.runs[n].files| :: Confirmed(s.objects, s.runs[n].files[i])
  }

  /** A completed run makes every later run of the same directory a rerun. */
  lemma CompletedMakesRerun(w: World, s: State, done: nat)
    requires Inv(w, s) && done < |s.runs| && s.runs[done].next == |s.runs[done].files|
    ensures Rerun(Apply(w, s, Begin(s.runs[done].dir, s.runs[done].files)), |s.runs|)
  {
  }

  lemma RerunOwnStep(w: World, s: State, n: nat, step: Step)
    requires Rerun(s, n) && !step.Begin? && step.run == n
    ensures Rerun(Apply(w, s, step), n) && Apply(w, s, step).objects == s.objects
  {
    var r := s.runs[n];
    if r.next < |r.files| { assert Confirmed(s.objects, r.files[r.next]); }
  }

  /** A step that is not its own leaves the run alone. */
  lemma OthersLeaveRun(w: World, s: State, n: nat, step: Step)
    requires n < |s.runs| && (step.Begin? || step.run != n)
    ensures n < |Apply(w, s, step).runs| && Apply(w, s, step).runs[n] == s.runs[n]
  {
  }

  lemma RerunStep(w: World, s: State, n: nat, step: Step)
    requires Hashing(w) && Inv(w, s) && Rerun(s, n)
    ensures Rerun(Apply(w, s, step), n)
    ensures !step.Begin? && step.run == n ==> Apply(w, s, step).objects == s.objects
  {
    if !step.Begin? && step.run == n {
      RerunOwnStep(w, s, n, step);
    } else {
      StepKeepsInv(w, s, step);
      OthersLeaveRun(w, s, n, step);
    }
  }

  /** Whatever other runs do meanwhile, no step of a rerun ever changes the bucket. */
  lemma {:induction false} RerunChangesNothing(w: World, s: State, n: nat, steps: seq<Step>, step: Step)
    requires Hashing(w) && Inv(w, s) && Rerun(s, n)
    requires !step.Begin? && step.run == n
    ensures Rerun(After(w, s, steps), n)
    ensures Apply(w, After(w, s, steps), step).objects == After(w, s, steps).objects
  {
    ChecksummedBytesNeverChange(w, s, steps);
    if steps != [] {
      var before := steps[..|steps| - 1];
      ChecksummedBytesNeverChange(w, s, before);
      RerunChangesNothing(w, s, n, before, step);
      RerunStep(w, After(w, s, before), n, steps[|steps| - 1]);
    }
    RerunStep(w, After(w, s, steps), n, step);
  }

  // ---------------------------------------------------------------- one run against a bucket others write to

  /** What the other writers do before the request at a given moment. */
  type Others = (nat, Objects) -> Objects

  ghost predicate Respectful(w: World, others: Others) {
    forall n, m :: Evolves(w, m, others(n, m))
  }

  ghost predicate Quiet(others: Others) {
    forall n, m :: others(n, m) == m
  }

  datatype Report = Present | Checksummed | New

  class Bucket {
    var objects: Objects

    constructor (initial: Objects)
      ensures objects == initial
    {
      objects := initial;
    }

    /** put: success confirms the file; a confirmed file is left as it is. */
    method Put(w: World, ghost dir: map<string, string>, ghost files: seq<File>, ghost position: nat, f: File,
               body: string, others: Others, moment: nat) returns (report: Option<Report>)
      requires Hashing(w) && Respectful(w, others) && Sound(w, objects) && Complete(w, objects)
      requires Lists(w, dir, files) && position < |files| && files[position] == f
      requires forall i | 0 <= i < position :: Confirmed(objects, files[i])
      modifies this
      ensures Evolves(w, old(objects), objects)
      ensures report.Some? ==> Confirmed(objects, f)
      ensures Confirmed(old(objects), f) ==> report == Some(Present)
      ensures Confirmed(old(objects), f) && Quiet(others) ==> objects == old(objects)
    {
      objects := others(moment, objects);
      var found := f.key in objects;
      if found {
        var stored := objects[f.key];
        if |stored.body| != f.size || (stored.checksum.Some? && stored.checksum.value != f.key.digest) { return None; }
        if stored.checksum.Some? { return Some(Present); }
        report := Some(Checksummed);
      } else {
        report := Some(New);
      }
      objects := others(moment + 1, objects);
      if !Accepts(w, objects, f, body, !found) { return None; }
      UploadKeeps(w, objects, f, body, !found);
      UploadCompletes(w, objects, dir, files, position, body, !found);
      objects := Uploaded(objects, f, body);
      objects := others(moment + 2, objects);
      if !Confirmed(objects, f) { return None; }
    }

    /** mirrorReleaseToR2: every file in order, stopping at the first error. Success leaves the whole
        publication confirmed; repeating it over an otherwise quiet bucket reports only "present" and writes nothing. */
    method MirrorRelease(w: World, dir: map<string, string>, bodies: nat -> string, others: Others) returns (report: Option<seq<Report>>)
      requires Hashing(w) && Respectful(w, others) && Sound(w, objects) && Complete(w, objects)
      modifies this
      ensures Evolves(w, old(objects), objects)
      ensures report.Some? ==> Publication(w, dir).Some? && Mirrored(w, dir, objects)
      ensures Publication(w, dir).None? ==> objects == old(objects)
      ensures Publication(w, dir).Some? && Mirrored(w, dir, old(objects)) ==> report.Some? && forall i | 0 <= i < |report.value| :: report.value[i].Present?
      ensures Publication(w, dir).Some? && Mirrored(w, dir, old(objects)) && Quiet(others) ==> objects == old(objects)
    {
      var listed := ReleaseMirrorFiles(w, dir);
      if listed.None? { return None; }
      var files := listed.value;
      var reports: seq<Report> := [];
      ghost var already := Mirrored(w, dir, objects);
      assert already ==> forall i | 0 <= i < |files| :: Confirmed(objects, files[i]);
      for n := 0 to |files|
        invariant Evolves(w, old(objects), objects)
        invariant |reports| == n
        invariant forall i | 0 <= i < n :: Confirmed(objects, files[i])
        invariant already ==> forall i | 0 <= i < n :: reports[i].Present?
        invariant already && Quiet(others) ==> objects == old(objects)
      {
        var state := Put(w, dir, files, n, files[n], bodies(n), others, 3 * n);
        if state.None? { return None; }
        reports := reports + [state.value];
      }
      assert Mirrored(w, dir, objects);
      return Some(reports);
    }
  }

  /** Every file of the publication, the index included, is in the bucket with its size and checksum. */
  ghost predicate Mirrored(w: World, dir: map<string, string>, objects: Objects)
    requires Publication(w, dir).Some?
  {
    var index := Publication(w, dir).value;
    && (forall i | 0 <= i < |index.artifacts| :: Confirmed(objects, FileOf(index.version, index.artifacts[i])))
    && Confirmed(objects, File(Key(index.version, w.sha(dir[INDEX]), INDEX), |dir[INDEX]|))
  }
}
