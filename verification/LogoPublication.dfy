/**
 Publishing logo derivatives: immutable sharing objects are linked first, then a display
 tree naming them is moved into place, with the previous tree kept aside for rollback.
 Any file-system action may fail, and the process may stop after any of them.
 */
module LogoPublication {
  import opened Common

  type Bytes = seq<Byte>

  const MAX_DIMENSION := 96
  const SHARING_DIMENSION := 256
  const SHARING_BYTE_LIMIT := 524_288
  const SOURCE_LIMIT := 524_288

  datatype Source = Source(path: string, data: Bytes)

  datatype Image = Image(format: string, width: int, height: int)

  /** What a manifest records about one derivative. */
  datatype Claim = Claim(sha: string, bytes: int, width: int, height: int)

  /** The name of a sharing object is made of two hashes. */
  datatype SharingName = SharingName(source: string, sharing: string)

  datatype Entry = Entry(
    sourcePath: string, sourceSha: string, sourceBytes: int,
    displayPath: string, display: Claim,
    sharingPath: SharingName, sharing: Claim)

  /** A display directory; `manifest` is `None` when missing, unreadable or of other settings. */
  datatype Tree = Tree(manifest: Option<seq<Entry>>, identity: Option<string>, files: map<string, Bytes>)

  datatype Built = Built(entry: Entry, display: Bytes, sharing: Bytes)

  /** Hashing, image decoding and image building, which this model does not look into. */
  datatype Tools = Tools(
    sha: Bytes -> string,
    measure: Bytes -> Image,
    build: Source -> Option<Built>,
    displayPath: string -> string,
    identity: seq<Entry> -> string)

  predicate Verified(t: Tools, data: Bytes, c: Claim, format: string, limit: int) {
    && t.sha(data) == c.sha && |data| == c.bytes
    && t.measure(data) == Image(format, c.width, c.height)
    && 1 <= c.width <= limit && 1 <= c.height <= limit
    && (format == "png" ==> c.bytes <= SHARING_BYTE_LIMIT)
  }

  predicate DisplayVerified(t: Tools, data: Bytes, e: Entry) {
    Verified(t, data, e.display, "webp", MAX_DIMENSION)
  }

  predicate SharingVerified(t: Tools, data: Bytes, e: Entry) {
    Verified(t, data, e.sharing, "png", SHARING_DIMENSION)
  }

  predicate WellNamed(t: Tools, e: Entry) {
    && e.displayPath == t.displayPath(e.sourcePath)
    && e.sharingPath == SharingName(e.sourceSha, e.sharing.sha)
    && 1 <= e.sourceBytes <= SOURCE_LIMIT
  }

  predicate Describes(t: Tools, e: Entry, s: Source) {
    e.sourcePath == s.path && e.sourceSha == t.sha(s.data) && e.sourceBytes == |s.data|
  }

  /** An entry with derivatives that bear it out. */
  predicate Good(t: Tools, s: Source, b: Built) {
    && Describes(t, b.entry, s) && WellNamed(t, b.entry)
    && DisplayVerified(t, b.display, b.entry) && SharingVerified(t, b.sharing, b.entry)
  }

  /** SHA-256 is taken to be injective, and the image builder to record what it built. */
  ghost predicate Sound(t: Tools) {
    && (forall a, b :: t.sha(a) == t.sha(b) ==> a == b)
    && (forall s :: t.build(s).Some? ==> Good(t, s, t.build(s).value))
  }

  /**
   Derivatives verify exactly when hash and length are the recorded ones and the bytes are an
   image of the recorded size: WebP up to 96 pixels a side, PNG up to 256 pixels and 512 KiB.
   */
  lemma DerivativesExactly(t: Tools, e: Entry, shown: Bytes, shared: Bytes)
    ensures WellNamed(t, e)
            <==> e.displayPath == t.displayPath(e.sourcePath)
                 && e.sharingPath == SharingName(e.sourceSha, e.sharing.sha) && 0 < e.sourceBytes <= 512 * 1024
    ensures DisplayVerified(t, shown, e)
            <==> e.display == Claim(t.sha(shown), |shown|, t.measure(shown).width, t.measure(shown).height)
                 && t.measure(shown).format == "webp"
                 && 0 < e.display.width < 97 && 0 < e.display.height < 97
    ensures SharingVerified(t, shared, e)
            <==> e.sharing == Claim(t.sha(shared), |shared|, t.measure(shared).width, t.measure(shared).height)
                 && t.measure(shared).format == "png" && |shared| <= 512 * 1024
                 && 0 < e.sharing.width < 257 && 0 < e.sharing.height < 257
  {
  }

  // ---- what is promised about the directory ----

  datatype Fs = Fs(sharing: map<SharingName, Bytes>, display: Option<Tree>, backup: Option<Tree>)

  ghost predicate Extends(before: map<SharingName, Bytes>, after: map<SharingName, Bytes>) {
    forall n :: n in before ==> n in after && after[n] == before[n]
  }

  /** Every sharing object the tree's manifest names exists with the recorded bytes. */
  ghost predicate Backed(t: Tools, tree: Tree, sharing: map<SharingName, Bytes>) {
    tree.manifest.Some? ==>
      forall e :: e in tree.manifest.value ==> e.sharingPath in sharing && SharingVerified(t, sharing[e.sharingPath], e)
  }

  /** Holds in every state: nothing shared is lost, what is displayed is backed, the previous tree is safe. */
  ghost predicate Safe(t: Tools, start: Fs, st: Fs) {
    && Extends(start.sharing, st.sharing)
    && (st.display.Some? ==> st.display == start.display || Backed(t, st.display.value, st.sharing))
    && (st.display == None ==> start.display == None || st.backup == start.display)
  }

  lemma SafeKeepsBacking(t: Tools, start: Fs, st: Fs)
    requires Safe(t, start, st)
    requires start.display.Some? ==> Backed(t, start.display.value, start.sharing)
    ensures st.display.Some? ==> Backed(t, st.display.value, st.sharing)
  {
  }

  datatype Linked = LinkDone | LinkExists | LinkFault

  datatype Error = ReadFault | WriteFault | BuildFault | Collision | Conflict | RenameFault

  // ---- the check ----

  ghost predicate DistinctPaths(t: Tools, sources: seq<Source>) {
    forall i, j :: 0 <= i < j < |sources| ==> t.displayPath(sources[i].path) != t.displayPath(sources[j].path)
  }

  function PathsOf(t: Tools, sources: seq<Source>): set<string> {
    set s | s in sources :: t.displayPath(s.path)
  }

  ghost predicate EntryReleased(t: Tools, s: Source, e: Entry, tree: Tree, sharing: map<SharingName, Bytes>) {
    && Describes(t, e, s) && WellNamed(t, e)
    && e.displayPath in tree.files && DisplayVerified(t, tree.files[e.displayPath], e)
    && e.sharingPath in sharing && SharingVerified(t, sharing[e.sharingPath], e)
  }

  /** The display tree is exactly the release of these sources. */
  ghost predicate Released(t: Tools, sources: seq<Source>, tree: Tree, sharing: map<SharingName, Bytes>) {
    && tree.manifest.Some? && |tree.manifest.value| == |sources|
    && (forall i :: 0 <= i < |sources| ==> EntryReleased(t, sources[i], tree.manifest.value[i], tree, sharing))
    && DistinctPaths(t, sources)
    && tree.files.Keys == PathsOf(t, sources)
    && tree.identity == Some(t.identity(tree.manifest.value))
  }

  function SourceBytes(sources: seq<Source>): nat {
    if sources == [] then 0 else SourceBytes(sources[..|sources| - 1]) + |sources[|sources| - 1].data|
  }

  function DisplayBytes(entries: seq<Entry>): int {
    if entries == [] then 0 else DisplayBytes(entries[..|entries| - 1]) + entries[|entries| - 1].display.bytes
  }

  predicate EntryPasses(t: Tools, s: Source, e: Entry, tree: Tree, sharing: map<SharingName, Bytes>) {
    && t.sha(s.data) == e.sourceSha && |s.data| == e.sourceBytes
    && e.displayPath == t.displayPath(e.sourcePath) && e.sharingPath == SharingName(e.sourceSha, e.sharing.sha)
    && 1 <= e.sourceBytes <= SOURCE_LIMIT
    && e.displayPath in tree.files && DisplayVerified(t, tree.files[e.displayPath], e)
    && e.sharingPath in sharing && SharingVerified(t, sharing[e.sharingPath], e)
  }

  /** The first `i` entries are released and use different display paths. */
  ghost predicate ReleasedUpTo(t: Tools, sources: seq<Source>, tree: Tree, sharing: map<SharingName, Bytes>, i: nat) {
    && tree.manifest.Some? && i <= |sources| == |tree.manifest.value|
    && (forall j :: 0 <= j < i ==> EntryReleased(t, sources[j], tree.manifest.value[j], tree, sharing))
    && DistinctPaths(t, sources[..i])
  }

  lemma PathsNext(t: Tools, sources: seq<Source>, s: Source)
    ensures PathsOf(t, sources + [s]) == PathsOf(t, sources) + {t.displayPath(s.path)}
  {
    assert forall x :: x in sources + [s] <==> x in sources || x == s;
  }

  lemma NextPath(t: Tools, sources: seq<Source>, s: Source)
    ensures DistinctPaths(t, sources + [s])
            <==> DistinctPaths(t, sources) && t.displayPath(s.path) !in PathsOf(t, sources)
  {
    var all, path := sources + [s], t.displayPath(s.path);
    assert all[|sources|] == s;
    if path in PathsOf(t, sources) {
      var r :| r in sources && t.displayPath(r.path) == path;
      var j :| 0 <= j < |sources| && sources[j] == r;
      assert all[j] == r;
    } else {
      forall j | 0 <= j < |sources| ensures t.displayPath(sources[j].path) != path {
        assert sources[j] in sources;
      }
    }
    if DistinctPaths(t, all) {
      forall i, j | 0 <= i < j < |sources| ensures t.displayPath(sources[i].path) != t.displayPath(sources[j].path) {
        assert all[i] == sources[i] && all[j] == sources[j];
      }
    }
  }

  lemma NextEntry(t: Tools, sources: seq<Source>, tree: Tree, sharing: map<SharingName, Bytes>, i: nat)
    requires i < |sources| && ReleasedUpTo(t, sources, tree, sharing, i)
    requires tree.manifest.value[i].sourcePath == sources[i].path
    ensures var e := tree.manifest.value[i];
            ReleasedUpTo(t, sources, tree, sharing, i + 1)
            <==> EntryPasses(t, sources[i], e, tree, sharing) && e.displayPath !in PathsOf(t, sources[..i])
    ensures PathsOf(t, sources[..i + 1]) == PathsOf(t, sources[..i]) + {t.displayPath(sources[i].path)}
  {
    assert sources[..i + 1] == sources[..i] + [sources[i]];
    NextPath(t, sources[..i], sources[i]);
    PathsNext(t, sources[..i], sources[i]);
  }

  lemma NextTotals(sources: seq<Source>, entries: seq<Entry>, i: nat)
    requires i < |sources| && i < |entries|
    ensures SourceBytes(sources[..i + 1]) == SourceBytes(sources[..i]) + |sources[i].data|
    ensures DisplayBytes(entries[..i + 1]) == DisplayBytes(entries[..i]) + entries[i].display.bytes
  {
    assert sources[..i + 1][..i] == sources[..i] && entries[..i + 1][..i] == entries[..i];
  }

  /** One turn of the entry loop: does the entry hold up, at a path not in use? */
  method CheckEntry(t: Tools, sources: seq<Source>, tree: Tree,
                    sharing: map<SharingName, Bytes>, i: nat, recorded: set<string>)
    returns (ok: bool)
    requires i < |sources| && ReleasedUpTo(t, sources, tree, sharing, i)
    requires tree.manifest.value[i].sourcePath == sources[i].path && recorded == PathsOf(t, sources[..i])
    ensures ok <==> ReleasedUpTo(t, sources, tree, sharing, i + 1)
    ensures ok ==> recorded + {tree.manifest.value[i].displayPath} == PathsOf(t, sources[..i + 1])
    ensures ok ==> tree.manifest.value[i].displayPath in tree.files
                   && |tree.files[tree.manifest.value[i].displayPath]| == tree.manifest.value[i].display.bytes
  {
    NextEntry(t, sources, tree, sharing, i);
    var e := tree.manifest.value[i];
    ok := EntryPasses(t, sources[i], e, tree, sharing) && e.displayPath !in recorded;
  }

  /** The entry loop: distinct paths in use and both byte totals, unless some entry does not hold up. */
  method CheckEntries(t: Tools, sources: seq<Source>, tree: Tree, sharing: map<SharingName, Bytes>)
    returns (r: Option<(set<string>, int, int)>)
    requires tree.manifest.Some? && |tree.manifest.value| == |sources|
    requires forall i :: 0 <= i < |sources| ==> tree.manifest.value[i].sourcePath == sources[i].path
    ensures r.Some? <==> ReleasedUpTo(t, sources, tree, sharing, |sources|)
    ensures r.Some? ==> r.value == (PathsOf(t, sources), SourceBytes(sources), DisplayBytes(tree.manifest.value))
  {
    var entries := tree.manifest.value;
    var recorded: set<string>, sourceBytes, displayBytes := {}, 0, 0;
    for i := 0 to |entries|
      invariant ReleasedUpTo(t, sources, tree, sharing, i)
      invariant recorded == PathsOf(t, sources[..i])
      invariant sourceBytes == SourceBytes(sources[..i]) && displayBytes == DisplayBytes(entries[..i])
    {
      NextTotals(sources, entries, i);
      var ok := CheckEntry(t, sources, tree, sharing, i, recorded);
      if !ok {
        ShorterPrefix(t, sources, tree, sharing, i + 1);
        return None;
      }
      recorded := recorded + {entries[i].displayPath};
      sourceBytes, displayBytes := sourceBytes + |sources[i].data|, displayBytes + |tree.files[entries[i].displayPath]|;
    }
    assert sources[..|sources|] == sources && entries[..|entries|] == entries;
    return Some((recorded, sourceBytes, displayBytes));
  }

  lemma ShorterPrefix(t: Tools, sources: seq<Source>, tree: Tree, sharing: map<SharingName, Bytes>, i: nat)
    requires i <= |sources|
    ensures ReleasedUpTo(t, sources, tree, sharing, |sources|) ==> ReleasedUpTo(t, sources, tree, sharing, i)
  {
  }

  /** The read-only check passes exactly on a release that is smaller than its sources. */
  method CheckDerivatives(t: Tools, sources: seq<Source>, tree: Tree, sharing: map<SharingName, Bytes>)
    returns (ok: bool)
    ensures ok <==> Released(t, sources, tree, sharing) && DisplayBytes(tree.manifest.value) < SourceBytes(sources)
  {
    if tree.manifest.None? || |tree.manifest.value| != |sources| {
      return false;
    }
    if exists i :: 0 <= i < |sources| && tree.manifest.value[i].sourcePath != sources[i].path {
      return false;
    }
    var r := CheckEntries(t, sources, tree, sharing);
    assert sources[..|sources|] == sources;
    return r.Some? && r.value.0 == tree.files.Keys && tree.identity == Some(t.identity(tree.manifest.value))
        && r.value.2 < r.value.1;
  }

  // ---- building ----

  /** Entries built so far, the staged files they name, and the sharing objects in first-use order. */
  datatype Batch = Batch(
    entries: seq<Entry>, files: map<string, Bytes>, order: seq<SharingName>, pngs: map<SharingName, Bytes>)

  function Add(b: Batch, one: Built): Batch {
    Batch(b.entries + [one.entry],
          b.files[one.entry.displayPath := one.display],
          if one.entry.sharingPath in b.pngs then b.order else b.order + [one.entry.sharingPath],
          b.pngs[one.entry.sharingPath := one.sharing])
  }

  ghost predicate EntryBuilt(t: Tools, s: Source, e: Entry, b: Batch) {
    && Describes(t, e, s) && WellNamed(t, e)
    && e.displayPath in b.files && DisplayVerified(t, b.files[e.displayPath], e)
    && e.sharingPath in b.pngs && SharingVerified(t, b.pngs[e.sharingPath], e)
  }

  /** A batch for a prefix of the sources: every entry still has its own derivatives. */
  ghost predicate Batched(t: Tools, sources: seq<Source>, b: Batch) {
    && |b.entries| == |sources|
    && (forall i :: 0 <= i < |sources| ==> EntryBuilt(t, sources[i], b.entries[i], b))
    && b.files.Keys == PathsOf(t, sources)
    && (forall n :: n in b.order <==> n in b.pngs)
    && Addressed(t, b.pngs)
  }

  /** Every sharing object is what its name says. */
  ghost predicate Addressed(t: Tools, sharing: map<SharingName, Bytes>) {
    forall n :: n in sharing ==> t.sha(sharing[n]) == n.sharing
  }

  /** A later source can only overwrite a sharing object with the same bytes, and no display file. */
  lemma EntryStays(t: Tools, s: Source, e: Entry, b: Batch, one: Built)
    requires Sound(t) && Addressed(t, b.pngs) && EntryBuilt(t, s, e, b)
    requires WellNamed(t, one.entry) && SharingVerified(t, one.sharing, one.entry)
    requires e.displayPath != one.entry.displayPath
    ensures EntryBuilt(t, s, e, Add(b, one))
  {
    if e.sharingPath == one.entry.sharingPath {
      assert t.sha(b.pngs[e.sharingPath]) == t.sha(one.sharing);
    }
  }

  lemma AddKeepsBatch(t: Tools, sources: seq<Source>, b: Batch, s: Source, one: Built, all: seq<Source>)
    requires Sound(t) && Batched(t, sources, b) && Good(t, s, one) && all == sources + [s]
    requires t.displayPath(s.path) !in PathsOf(t, sources)
    ensures Batched(t, all, Add(b, one))
  {
    var b' := Add(b, one);
    forall i | 0 <= i < |all| ensures EntryBuilt(t, all[i], b'.entries[i], b') {
      if i < |sources| {
        assert EntryBuilt(t, sources[i], b.entries[i], b);
        assert b.entries[i].displayPath in PathsOf(t, sources);
        EntryStays(t, sources[i], b.entries[i], b, one);
      }
    }
    PathsNext(t, sources, s);
  }

  lemma NextBatch(t: Tools, sources: seq<Source>, k: nat, b: Batch, one: Built)
    requires Sound(t) && DistinctPaths(t, sources) && k < |sources|
    requires Batched(t, sources[..k], b) && Good(t, sources[k], one)
    ensures Batched(t, sources[..k + 1], Add(b, one))
  {
    AddKeepsBatch(t, sources[..k], b, sources[k], one, sources[..k + 1]);
  }

  function FindEntry(entries: seq<Entry>, path: string): (r: Option<Entry>)
    ensures r.Some? ==> r.value in entries && r.value.sourcePath == path
  {
    if entries == [] then None
    else if entries[0].sourcePath == path then Some(entries[0])
    else FindEntry(entries[1..], path)
  }

  // ---- what is reused and what is built ----

  /** Entry `i` is the first that a manifest has for a source. */
  ghost predicate FirstAt(entries: seq<Entry>, path: string, i: int) {
    0 <= i < |entries| && entries[i].sourcePath == path && forall j :: 0 <= j < i ==> entries[j].sourcePath != path
  }

  ghost predicate IsPrior(previous: Option<seq<Entry>>, path: string, e: Entry) {
    previous.Some? && exists i :: FirstAt(previous.value, path, i) && previous.value[i] == e
  }

  /** Both derivatives of an entry are there and verify. */
  predicate Reusable(t: Tools, display: Option<Tree>, sharing: map<SharingName, Bytes>, e: Entry) {
    && WellNamed(t, e) && display.Some?
    && e.displayPath in display.value.files && DisplayVerified(t, display.value.files[e.displayPath], e)
    && e.sharingPath in sharing && SharingVerified(t, sharing[e.sharingPath], e)
  }

  /** The source is unchanged since the manifest was written, and its derivatives still verify. */
  ghost predicate ToReuse(t: Tools, display: Option<Tree>, sharing: map<SharingName, Bytes>,
                          previous: Option<seq<Entry>>, s: Source, e: Entry)
  {
    IsPrior(previous, s.path, e) && Describes(t, e, s) && Reusable(t, display, sharing, e)
  }

  /** A source gets the entry to reuse, if there is one, else the one the builder makes. */
  ghost predicate EntryDue(t: Tools, display: Option<Tree>, sharing: map<SharingName, Bytes>,
                           previous: Option<seq<Entry>>, s: Source, e: Entry)
  {
    ToReuse(t, display, sharing, previous, s, e)
    || ((forall x :: !ToReuse(t, display, sharing, previous, s, x)) && t.build(s).Some? && e == t.build(s).value.entry)
  }

  /** Nothing can be reused for the source and the builder makes nothing of it. */
  ghost predicate NothingDue(t: Tools, display: Option<Tree>, sharing: map<SharingName, Bytes>,
                             previous: Option<seq<Entry>>, s: Source)
  {
    forall e :: !EntryDue(t, display, sharing, previous, s, e)
  }

  /** The manifest of the tree on display. */
  function ManifestOf(display: Option<Tree>): Option<seq<Entry>> {
    if display == None then None else display.value.manifest
  }

  lemma {:induction false} FoundIsFirst(entries: seq<Entry>, path: string) returns (i: nat)
    requires FindEntry(entries, path).Some?
    ensures FirstAt(entries, path, i) && FindEntry(entries, path) == Some(entries[i])
  {
    if entries[0].sourcePath == path {
      i := 0;
    } else {
      var k := FoundIsFirst(entries[1..], path);
      i := k + 1;
      assert forall j :: 0 < j < i ==> entries[j] == entries[1..][j - 1];
    }
  }

  lemma {:induction false} FirstIsFound(entries: seq<Entry>, path: string, i: nat)
    requires FirstAt(entries, path, i)
    ensures FindEntry(entries, path) == Some(entries[i])
    decreases i
  {
    if i > 0 {
      assert forall j :: 0 <= j < i ==> entries[1..][j] == entries[j + 1];
      FirstIsFound(entries[1..], path, i - 1);
    }
  }

  lemma OnePrior(previous: Option<seq<Entry>>, path: string, e: Entry)
    ensures IsPrior(previous, path, e) <==> previous.Some? && FindEntry(previous.value, path) == Some(e)
  {
    if previous.Some? {
      if FindEntry(previous.value, path).Some? {
        var i := FoundIsFirst(previous.value, path);
      }
      if i :| FirstAt(previous.value, path, i) {
        FirstIsFound(previous.value, path, i);
      }
    }
  }

  /** What is reused or else built is the one entry due. */
  lemma DueExactly(t: Tools, display: Option<Tree>, sharing: map<SharingName, Bytes>,
                   previous: Option<seq<Entry>>, s: Source, r: Option<Built>)
    requires forall e :: ToReuse(t, display, sharing, previous, s, e) ==> r.Some? && r.value.entry == e
    requires (forall e :: !ToReuse(t, display, sharing, previous, s, e)) ==> r == t.build(s)
    ensures forall e :: EntryDue(t, display, sharing, previous, s, e) <==> r.Some? && e == r.value.entry
  {
    if e :| ToReuse(t, display, sharing, previous, s, e) {
      assert EntryDue(t, display, sharing, previous, s, e);
    }
  }

  method Collides(t: Tools, sources: seq<Source>) returns (r: bool)
    ensures r <==> !DistinctPaths(t, sources)
  {
    var paths := seq(|sources|, i requires 0 <= i < |sources| => t.displayPath(sources[i].path));
    DuplicatesShrink(paths);
    r := |Elements(paths)| != |paths|;
    if Distinct(paths) {
      forall i, j | 0 <= i < j < |sources| ensures t.displayPath(sources[i].path) != t.displayPath(sources[j].path) {
        assert paths[i] != paths[j];
      }
    }
  }

  // ---- publishing ----

  class Publisher {
    const t: Tools
    /** Which of the attempted actions fail. */
    const faults: nat -> bool
    var clock: nat
    var sharing: map<SharingName, Bytes>
    var display: Option<Tree>
    var staged: Option<Tree>
    var backup: Option<Tree>
    ghost const start: Fs
    /** Every state the directory went through, the present one last. */
    ghost var history: seq<Fs>

    function Now(): Fs
      reads `sharing, `display, `backup
    {
      Fs(sharing, display, backup)
    }

    ghost predicate Valid()
      reads `sharing, `display, `backup, `history
    {
      && history != [] && history[|history| - 1] == Now()
      && forall st :: st in history ==> Safe(t, start, st) && Extends(st.sharing, sharing)
    }

    constructor (t: Tools, faults: nat -> bool, sharing: map<SharingName, Bytes>, display: Option<Tree>)
      ensures Valid() && this.t == t && this.faults == faults
      ensures start == Now() == Fs(sharing, display, None) && clock == 0 && staged == None
    {
      this.t, this.faults, clock := t, faults, 0;
      this.sharing, this.display, staged, backup := sharing, display, None, None;
      start, history := Fs(sharing, display, None), [Fs(sharing, display, None)];
    }

    /** One attempted action: does it fail? */
    method Attempt() returns (fault: bool)
      modifies `clock
      ensures fault == faults(old(clock)) && clock == old(clock) + 1
    {
      fault, clock := faults(clock), clock + 1;
    }

    ghost predicate NoFaults() {
      forall n :: !faults(n)
    }

    /** Note the state reached. */
    ghost method Record()
      requires history != [] && Safe(t, start, Now())
      requires forall st :: st in history ==> Safe(t, start, st) && Extends(st.sharing, sharing)
      modifies `history
      ensures Valid() && history == old(history) + [Now()]
    {
      history := history + [Now()];
    }

    /** A hard link appears complete or not at all, and never replaces anything. */
    method Link(n: SharingName, data: Bytes) returns (r: Linked)
      requires Valid()
      modifies `clock, `sharing, `history
      ensures Valid() && Extends(old(sharing), sharing)
      ensures r.LinkDone? ==> n !in old(sharing) && sharing == old(sharing)[n := data]
      ensures !r.LinkDone? ==> sharing == old(sharing)
      ensures r.LinkExists? ==> n in sharing
      ensures r.LinkFault? <==> faults(old(clock))
    {
      var fault := Attempt();
      if fault {
        return LinkFault;
      }
      if n in sharing {
        return LinkExists;
      }
      sharing := sharing[n := data];
      Record();
      return LinkDone;
    }

    /** Link every sharing object; an existing one must already hold the same bytes. */
    method PublishSharing(order: seq<SharingName>, pngs: map<SharingName, Bytes>) returns (r: Option<Error>)
      requires Valid() && forall n :: n in order ==> n in pngs
      modifies `clock, `sharing, `history
      ensures Valid() && Extends(old(sharing), sharing)
      ensures r.None? ==> forall n :: n in order ==> n in sharing && sharing[n] == pngs[n]
      ensures r == Some(Conflict) ==> exists n :: n in order && n in sharing && sharing[n] != pngs[n]
      ensures r.Some? ==> r.value == Conflict || ((r.value == WriteFault || r.value == ReadFault) && !NoFaults())
      ensures faults(old(clock)) && order != [] ==> r == Some(WriteFault)
      ensures Addressed(t, old(sharing)) && Addressed(t, pngs) ==> Addressed(t, sharing)
    {
      for k := 0 to |order|
        invariant Valid() && Extends(old(sharing), sharing)
        invariant Addressed(t, old(sharing)) && Addressed(t, pngs) ==> Addressed(t, sharing)
        invariant forall i :: 0 <= i < k ==> order[i] in sharing && sharing[order[i]] == pngs[order[i]]
        invariant if k == 0 then clock == old(clock) else !faults(old(clock))
      {
        var n := order[k];
        var writeFault := Attempt();
        if writeFault {
          return Some(WriteFault);
        }
        var linked := Link(n, pngs[n]);
        if linked.LinkFault? {
          return Some(WriteFault);
        }
        if linked.LinkExists? {
          var unreadable := Attempt();
          if unreadable {
            return Some(ReadFault);
          }
          if sharing[n] != pngs[n] {
            return Some(Conflict);
          }
        }
      }
      return None;
    }

    /** Move the previous tree aside; with no tree there is nothing to move. */
    method SetAside() returns (r: Result<bool, Error>)
      requires Valid() && display == start.display
      modifies `clock, `display, `backup, `history
      ensures Valid()
      ensures clock == old(clock) + 1 && (r.Err? <==> faults(old(clock)))
      ensures r.Err? ==> r.error == RenameFault && Now() == old(Now())
      ensures r.Ok? ==> display == None && r.value == start.display.Some? && (r.value ==> backup == start.display)
    {
      var fault := Attempt();
      if fault {
        return Err(RenameFault);
      }
      if display == None {
        return Ok(false);
      }
      display, backup := None, display;
      Record();
      return Ok(true);
    }

    /**
     Swap the staged tree in. On failure the previous tree is put back; only if that fails
     too is it left in the backup, and then the backup is to be kept.
     */
    method Install() returns (r: Option<Error>, preserveBackup: bool)
      requires Valid() && display == start.display && staged.Some? && Backed(t, staged.value, sharing)
      modifies `clock, `display, `backup, `history
      ensures Valid()
      ensures r.None? <==> !faults(old(clock)) && !faults(old(clock) + 1)
      ensures preserveBackup
              <==> !faults(old(clock)) && faults(old(clock) + 1) && start.display.Some? && faults(old(clock) + 2)
      ensures r.Some? ==> r.value == RenameFault
      ensures r.None? ==> display == staged && !preserveBackup
      ensures r.Some? && !preserveBackup ==> display == start.display
      ensures preserveBackup ==> r.Some? && start.display.Some? && display == None && backup == start.display
    {
      preserveBackup := false;
      var hadDisplay := SetAside();
      if hadDisplay.Err? {
        return Some(hadDisplay.error), preserveBackup;
      }
      var fault := Attempt();
      if fault {
        if hadDisplay.value {
          preserveBackup := true;
          var again := Attempt();
          if again {
            return Some(RenameFault), preserveBackup;
          }
          display, backup := backup, None;
          Record();
          preserveBackup := false;
        }
        return Some(RenameFault), preserveBackup;
      }
      display := staged;
      Record();
      return None, preserveBackup;
    }

    /** Remove the staging directory, backup included; if that fails nothing else changes. */
    method Cleanup(preserveBackup: bool)
      requires Valid() && (!preserveBackup ==> display.Some? || start.display == None)
      modifies `clock, `backup, `staged, `history
      ensures Valid()
      ensures preserveBackup || faults(old(clock)) ==> backup == old(backup)
      ensures !preserveBackup && !faults(old(clock)) ==> backup == None && staged == None
    {
      if !preserveBackup {
        var fault := Attempt();
        if !fault {
          backup, staged := None, None;
          Record();
        }
      }
    }

    /** Derivatives of an unchanged source are reused if they verify again. */
    method Reuse(prior: Entry) returns (r: Option<Built>)
      modifies `clock
      ensures r.Some? <==> !faults(old(clock)) && Reusable(t, display, sharing, prior)
      ensures r.Some? ==> r.value == Built(prior, display.value.files[prior.displayPath], sharing[prior.sharingPath])
    {
      var fault := Attempt();
      if fault || display == None || !WellNamed(t, prior)
         || prior.displayPath !in display.value.files || prior.sharingPath !in sharing
      {
        return None;
      }
      var shown, shared := display.value.files[prior.displayPath], sharing[prior.sharingPath];
      if !DisplayVerified(t, shown, prior) || !SharingVerified(t, shared, prior) {
        return None;
      }
      return Some(Built(prior, shown, shared));
    }

    /** What the previous manifest still describes is reused with its bytes; everything else is built. */
    method BuildOne(s: Source, previous: Option<seq<Entry>>) returns (r: Option<Built>)
      requires Sound(t)
      modifies `clock
      ensures r.Some? ==> Good(t, s, r.value)
      ensures forall e :: ToReuse(t, display, sharing, previous, s, e) && !faults(old(clock)) ==>
                            r == Some(Built(e, display.value.files[e.displayPath], sharing[e.sharingPath]))
      ensures faults(old(clock)) || (forall e :: !ToReuse(t, display, sharing, previous, s, e)) ==> r == t.build(s)
    {
      var prior := if previous.Some? then FindEntry(previous.value, s.path) else None;
      forall e ensures IsPrior(previous, s.path, e) <==> prior == Some(e) {
        OnePrior(previous, s.path, e);
      }
      r := None;
      if prior.Some? && prior.value.sourceSha == t.sha(s.data) && prior.value.sourceBytes == |s.data| {
        r := Reuse(prior.value);
      }
      if r == None {
        r := t.build(s);
      }
    }

    /** What the tree on display and the objects shared at the start make due to a source. */
    ghost predicate DueAtStart(s: Source, e: Entry) {
      EntryDue(t, start.display, start.sharing, ManifestOf(start.display), s, e)
    }

    /** The entries of a batch are those due to the first `k` sources. */
    ghost predicate AllDue(sources: seq<Source>, k: nat, previous: Option<seq<Entry>>, entries: seq<Entry>)
      requires k <= |sources|
      reads `display, `sharing
    {
      |entries| == k && forall i :: 0 <= i < k ==> EntryDue(t, display, sharing, previous, sources[i], entries[i])
    }

    /** Reads source `k`, builds or reuses its derivatives, and adds them to the batch. */
    method BuildNext(sources: seq<Source>, k: nat, batch: Batch, previous: Option<seq<Entry>>)
      returns (r: Result<Batch, Error>)
      requires Sound(t) && DistinctPaths(t, sources) && k < |sources| && Batched(t, sources[..k], batch)
      modifies `clock
      ensures r.Ok? ==> Batched(t, sources[..k + 1], r.value)
      ensures NoFaults() && r.Ok? && AllDue(sources, k, previous, batch.entries) ==>
                AllDue(sources, k + 1, previous, r.value.entries)
      ensures r.Err? ==> r == Err(if faults(old(clock)) then ReadFault else BuildFault)
      ensures r == Err(BuildFault) ==> t.build(sources[k]) == None
      ensures NoFaults() && r.Err? ==> NothingDue(t, display, sharing, previous, sources[k])
    {
      var fault := Attempt();
      if fault {
        return Err(ReadFault);
      }
      var built := BuildOne(sources[k], previous);
      if NoFaults() {
        DueExactly(t, display, sharing, previous, sources[k], built);
      }
      if built == None {
        return Err(BuildFault);
      }
      NextBatch(t, sources, k, batch, built.value);
      return Ok(Add(batch, built.value));
    }

    /** Without a fault every source gets the entry due to it, or some source has none. */
    method BuildAll(sources: seq<Source>, previous: Option<seq<Entry>>) returns (r: Result<Batch, Error>)
      requires Sound(t) && DistinctPaths(t, sources)
      modifies `clock
      ensures r.Ok? ==> Batched(t, sources, r.value)
      ensures NoFaults() && r.Ok? ==> AllDue(sources, |sources|, previous, r.value.entries)
      ensures r.Err? ==> r.error == ReadFault || r.error == BuildFault
      ensures r == Err(ReadFault) ==> !NoFaults()
      ensures r == Err(BuildFault) ==> exists s :: s in sources && t.build(s) == None
      ensures NoFaults() && r.Err? ==> exists s :: s in sources && NothingDue(t, display, sharing, previous, s)
    {
      var batch := Batch([], map[], [], map[]);
      for k := 0 to |sources|
        invariant Batched(t, sources[..k], batch)
        invariant NoFaults() ==> AllDue(sources, k, previous, batch.entries)
      {
        var next := BuildNext(sources, k, batch, previous);
        if next.Err? {
          assert sources[k] in sources;
          return next;
        }
        batch := next.value;
      }
      assert sources[..|sources|] == sources;
      return Ok(batch);
    }

    /** From a complete batch on: stage it, publish its sharing objects, install it. */
    method Release(sources: seq<Source>, batch: Batch) returns (r: Result<Tree, Error>)
      requires Valid() && display == start.display && Batched(t, sources, batch) && DistinctPaths(t, sources)
      modifies `clock, `sharing, `display, `staged, `backup, `history
      ensures Valid()
      ensures r.Ok? ==> display == Some(r.value) && Released(t, sources, r.value, sharing)
      ensures r.Ok? ==> r.value.manifest == Some(batch.entries)
      ensures NoFaults() ==> staged == None && backup == None
      ensures faults(old(clock)) ==> r == Err(WriteFault)
      ensures r.Err? ==> display == start.display || (display == None && backup == start.display)
      ensures r.Err? && NoFaults() ==>
                r.error == Conflict && exists n :: n in batch.pngs && n in sharing && sharing[n] != batch.pngs[n]
      ensures r.Err? ==> r.error in {ReadFault, WriteFault, Conflict, RenameFault}
      ensures Addressed(t, old(sharing)) ==> Addressed(t, sharing)
    {
      var stageFault := Attempt();
      if stageFault {
        Cleanup(false);
        return Err(WriteFault);
      }
      var tree := Tree(Some(batch.entries), Some(t.identity(batch.entries)), batch.files);
      staged := Some(tree);
      var published := PublishSharing(batch.order, batch.pngs);
      if published.Some? {
        Cleanup(false);
        return Err(published.value);
      }
      BatchIsReleased(t, sources, batch, sharing);
      var installed, preserveBackup := Install();
      Cleanup(preserveBackup);
      r := if installed.Some? then Err(installed.value) else Ok(tree);
    }

    /**
     The whole run. In every state passed through, existing sharing objects are intact, a
     displayed tree is the previous one or fully backed, and the previous tree is displayed or
     set aside until a new one is displayed. Success displays exactly the release of the
     sources; failure leaves the display as it was, or, after a failed rollback, in the backup.
     Without a fault the manifest has the entry due to each source: the reused one, or else the
     built one. Only a collision, a source to which nothing is due, or a conflicting sharing
     object makes such a run fail; nothing is left staged or set aside.
     */
    method WriteDerivatives(sources: seq<Source>) returns (r: Result<Tree, Error>)
      requires Sound(t) && Valid() && Now() == start
      modifies this
      ensures Valid()
      ensures r == Err(Collision) <==> !DistinctPaths(t, sources)
      ensures r.Ok? ==> display == Some(r.value) && Released(t, sources, r.value, sharing)
      ensures r.Err? ==> display == start.display || (display == None && backup == start.display)
      ensures r.Err? && NoFaults() ==>
                match r.error
                case Collision => true
                case BuildFault =>
                  exists s :: s in sources && forall e :: !DueAtStart(s, e)
                case Conflict => !Addressed(t, start.sharing)
                case _ => false
      ensures r.Ok? && NoFaults() ==>
                forall i :: 0 <= i < |sources| ==> DueAtStart(sources[i], r.value.manifest.value[i])
      ensures NoFaults() && DistinctPaths(t, sources) ==> staged == None && backup == None
      ensures faults(old(clock) + 1) && DistinctPaths(t, sources) ==> r == Err(WriteFault)
    {
      var collision := Collides(t, sources);
      if collision {
        return Err(Collision);
      }
      var unreadable := Attempt();
      var previous := if unreadable then None else ManifestOf(display);
      var noStage := Attempt();
      if noStage {
        return Err(WriteFault);
      }
      var batch := BuildAll(sources, previous);
      if batch.Err? {
        Cleanup(false);
        return Err(batch.error);
      }
      r := Release(sources, batch.value);
      if Addressed(t, start.sharing) {
        AddressedAgree(t, batch.value.pngs, sharing);
      }
    }
  }

  /** Content-addressed objects of one name never conflict. */
  lemma AddressedAgree(t: Tools, a: map<SharingName, Bytes>, b: map<SharingName, Bytes>)
    requires Sound(t) && Addressed(t, a) && Addressed(t, b)
    ensures forall n :: n in a && n in b ==> a[n] == b[n]
  {
  }

  /** A batch whose sharing objects are all in place makes a release. */
  lemma BatchIsReleased(t: Tools, sources: seq<Source>, b: Batch, sharing: map<SharingName, Bytes>)
    requires Batched(t, sources, b) && DistinctPaths(t, sources)
    requires forall n :: n in b.order ==> n in sharing && sharing[n] == b.pngs[n]
    ensures var tree := Tree(Some(b.entries), Some(t.identity(b.entries)), b.files);
            Released(t, sources, tree, sharing) && Backed(t, tree, sharing)
  {
    var tree := Tree(Some(b.entries), Some(t.identity(b.entries)), b.files);
    forall i | 0 <= i < |sources| ensures EntryReleased(t, sources[i], b.entries[i], tree, sharing) {
      assert EntryBuilt(t, sources[i], b.entries[i], b);
    }
  }
}
