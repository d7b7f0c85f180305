/**
 * The Python side of the sketch node: the naming rules for drawing files, the
 * retention policy for the per-uid temporary saves, and the three HTTP routes
 * that save a drawing, save a permanent copy and serve a drawing back.
 *
 * A directory is a sequence of entries, each with a name, a modification
 * time, whether it is a regular file and its bytes; names in a directory are
 * distinct. The clock, uuid generation, base64 decoding and `os.path.normpath`
 * are parameters.
 */
module Backend {
  import opened Common

  type Byte = bv8

  datatype Entry = Entry(name: string, mtime: real, isFile: bool, data: seq<Byte>)

  // ---------------------------------------------------------------------------
  // Names
  // ---------------------------------------------------------------------------

  /** The characters `[a-zA-Z0-9_\-]` that the workflow-name sanitiser keeps. */
  predicate Allowed(c: char) {
    ('a' <= c <= 'z') || ('A' <= c <= 'Z') || ('0' <= c <= '9') || c == '_' || c == '-'
  }

  /** `re.sub(r'[^a-zA-Z0-9_\-]', '_', name)`. */
  function SafeWorkflowName(name: string): (r: string)
    ensures |r| == |name|
    ensures forall i :: 0 <= i < |name| ==> r[i] == (if Allowed(name[i]) then name[i] else '_')
  {
    if name == [] then []
    else [if Allowed(name[0]) then name[0] else '_'] + SafeWorkflowName(name[1..])
  }

  /** The sanitised name uses only allowed characters, and sanitising leaves a name unchanged exactly when it has none other. */
  lemma SafeNameAllowed(name: string)
    ensures forall i :: 0 <= i < |name| ==> Allowed(SafeWorkflowName(name)[i])
    ensures SafeWorkflowName(name) == name <==> forall i :: 0 <= i < |name| ==> Allowed(name[i])
  {
    var r := SafeWorkflowName(name);
    if forall i :: 0 <= i < |name| ==> Allowed(name[i]) {
      assert r == name;
    }
  }

  /** Sanitising is idempotent. */
  lemma SafeNameIdempotent(name: string)
    ensures SafeWorkflowName(SafeWorkflowName(name)) == SafeWorkflowName(name)
  {
    SafeNameAllowed(name);
    SafeNameAllowed(SafeWorkflowName(name));
  }

  const AutoGenerate: string := "__AUTO_GENERATE__"
  const UidSeedPrefix: string := "comfyui_olm_sketch_"

  /**
   * `ensure_drawing_uid_static`: a real uid is kept; otherwise the uid is
   * `uuid5(NAMESPACE_DNS, "comfyui_olm_sketch_" + node_id)` for a node id,
   * or the fresh `random` uuid4 when there is none. A missing uid is "".
   */
  function EnsureDrawingUid(drawingUid: string, nodeId: string, uuid5: string -> string, random: string): (u: string)
    ensures drawingUid != "" && drawingUid != AutoGenerate ==> u == drawingUid
    ensures (drawingUid == "" || drawingUid == AutoGenerate) && nodeId != "" ==> u == uuid5(UidSeedPrefix + nodeId)
    ensures (drawingUid == "" || drawingUid == AutoGenerate) && nodeId == "" ==> u == random
  {
    if drawingUid != "" && drawingUid != AutoGenerate then drawingUid
    else if nodeId != "" then uuid5(UidSeedPrefix + nodeId)
    else random
  }

  /**
   * The uid a save hands back, once stored in the widget, comes back
   * unchanged from every later call; and a node with an id gets the same uid
   * whatever the random source.
   */
  lemma UidStable(drawingUid: string, nodeId: string, uuid5: string -> string, random: string,
                  nodeId': string, random': string)
    ensures var u := EnsureDrawingUid(drawingUid, nodeId, uuid5, random);
      u != "" && u != AutoGenerate ==> EnsureDrawingUid(u, nodeId', uuid5, random') == u
    ensures nodeId != "" ==> EnsureDrawingUid(drawingUid, nodeId, uuid5, random) == EnsureDrawingUid(drawingUid, nodeId, uuid5, random')
  {
  }

  const DrawingPrefix: string := "drawing_"
  const PngSuffix: string := ".png"

  /** The permanent cache file of a workflow and a uid. */
  function CacheName(safeWorkflow: string, uid: string): (n: string)
    ensures DrawingPrefix <= n && |n| == |DrawingPrefix| + |safeWorkflow| + 1 + |uid| + |PngSuffix|
    ensures n[|DrawingPrefix|..|DrawingPrefix| + |safeWorkflow|] == safeWorkflow
  {
    DrawingPrefix + safeWorkflow + "_" + uid + PngSuffix
  }

  /** The prefix every temporary save of a uid starts with. */
  function CleanupPrefix(uid: string): string {
    DrawingPrefix + uid + "_"
  }

  /** `str(n)` for a natural number: its decimal digits, most significant first. */
  function Decimal(n: nat): (s: string)
    ensures |s| >= 1 && forall i :: 0 <= i < |s| ==> '0' <= s[i] <= '9'
  {
    if n < 10 then [(48 + n) as char] else Decimal(n / 10) + [(48 + n % 10) as char]
  }

  /** The reading of a digit string, to state that `Decimal` loses nothing. */
  function DecimalValue(s: string): nat
    requires forall i :: 0 <= i < |s| ==> '0' <= s[i] <= '9'
  {
    if s == [] then 0 else 10 * DecimalValue(s[..|s| - 1]) + (s[|s| - 1] as int - 48)
  }

  lemma {:induction false} DecimalRoundTrip(n: nat)
    ensures DecimalValue(Decimal(n)) == n
  {
    if n >= 10 {
      var s := Decimal(n);
      assert s[..|s| - 1] == Decimal(n / 10);
      DecimalRoundTrip(n / 10);
    }
  }

  /** The temporary file of one save: `drawing_{uid}_{ms}.png`. */
  function TempName(uid: string, stamp: nat): string {
    CleanupPrefix(uid) + Decimal(stamp) + PngSuffix
  }

  /**
   * A temporary save carries its uid's cleanup prefix, so later cleanups
   * count it; and different time stamps give different names.
   */
  lemma TempNameShape(uid: string, stamp: nat, stamp': nat)
    ensures CleanupPrefix(uid) <= TempName(uid, stamp)
    ensures stamp != stamp' ==> TempName(uid, stamp) != TempName(uid, stamp')
  {
    if stamp != stamp' && TempName(uid, stamp) == TempName(uid, stamp') {
      var p := CleanupPrefix(uid);
      var a, b := Decimal(stamp), Decimal(stamp');
      assert |a| == |b|;
      assert a == TempName(uid, stamp)[|p|..|p| + |a|];
      assert b == TempName(uid, stamp')[|p|..|p| + |b|];
      DecimalRoundTrip(stamp);
      DecimalRoundTrip(stamp');
    }
  }

  // ---------------------------------------------------------------------------
  // Directories
  // ---------------------------------------------------------------------------

  /** The entries of `d` that `keep` accepts, in directory order. */
  function Filter(d: seq<Entry>, keep: Entry -> bool): (r: seq<Entry>)
    ensures |r| <= |d|
    ensures forall x :: x in r <==> x in d && keep(x)
  {
    if d == [] then [] else (if keep(d[0]) then [d[0]] else []) + Filter(d[1..], keep)
  }

  predicate DistinctNames(d: seq<Entry>) {
    forall i, j :: 0 <= i < |d| && 0 <= j < |d| && i != j ==> d[i].name != d[j].name
  }

  /** The names of a sequence of entries. */
  function NamesOf(fs: seq<Entry>): (ns: set<string>)
    ensures forall f :: f in fs ==> f.name in ns
    ensures forall n :: n in ns ==> exists i :: 0 <= i < |fs| && fs[i].name == n
  {
    if fs == [] then {} else NamesOf(fs[..|fs| - 1]) + {fs[|fs| - 1].name}
  }

  /** `os.path.exists` for a plain name in the directory. */
  predicate Exists(d: seq<Entry>, name: string) {
    name in NamesOf(d)
  }

  /** The test that keeps an entry whose name is not in `names`. */
  function NotNamed(names: set<string>): Entry -> bool {
    (e: Entry) => e.name !in names
  }

  /** The directory after deleting every name in `names`. */
  function Without(d: seq<Entry>, names: set<string>): seq<Entry> {
    Filter(d, NotNamed(names))
  }

  /** The directory after writing `data` to `name` (created, or overwritten in place of the old entry). */
  function Written(d: seq<Entry>, name: string, mtime: real, data: seq<Byte>): seq<Entry> {
    Without(d, {name}) + [Entry(name, mtime, true, data)]
  }

  lemma {:induction false} FilterDistinct(d: seq<Entry>, keep: Entry -> bool)
    requires DistinctNames(d)
    ensures DistinctNames(Filter(d, keep))
  {
    if d != [] {
      FilterDistinct(d[1..], keep);
      var t := Filter(d[1..], keep);
      forall y | y in t ensures y.name != d[0].name {
        var k :| 0 <= k < |d[1..]| && d[1..][k] == y;
        assert d[k + 1] == y;
      }
      if keep(d[0]) {
        ConsDistinct(d[0], t);
      } else {
        assert Filter(d, keep) == t;
      }
    }
  }

  lemma ConsDistinct(x: Entry, t: seq<Entry>)
    requires DistinctNames(t) && forall y :: y in t ==> y.name != x.name
    ensures DistinctNames([x] + t)
  {
    var d := [x] + t;
    forall i, j | 0 <= i < |d| && 0 <= j < |d| && i != j ensures d[i].name != d[j].name {
      if i > 0 && j > 0 {
        assert d[i] == t[i - 1] && d[j] == t[j - 1];
      } else if i == 0 {
        assert d[j] == t[j - 1] && d[j] in t;
      } else {
        assert d[i] == t[i - 1] && d[i] in t;
      }
    }
  }

  /** How often `x` occurs after filtering. */
  lemma {:induction false} FilterCount(d: seq<Entry>, keep: Entry -> bool, x: Entry)
    ensures multiset(Filter(d, keep))[x] == if keep(x) then multiset(d)[x] else 0
  {
    if d != [] {
      FilterCount(d[1..], keep, x);
      assert d == [d[0]] + d[1..];
    }
  }

  /** Filtering two arrangements of the same entries gives arrangements of the same entries. */
  lemma FilterPermutation(a: seq<Entry>, b: seq<Entry>, keep: Entry -> bool)
    requires multiset(a) == multiset(b)
    ensures multiset(Filter(a, keep)) == multiset(Filter(b, keep))
  {
    forall x ensures multiset(Filter(a, keep))[x] == multiset(Filter(b, keep))[x] {
      FilterCount(a, keep, x);
      FilterCount(b, keep, x);
    }
  }

  lemma {:induction false} FilterConcat(a: seq<Entry>, b: seq<Entry>, keep: Entry -> bool)
    ensures Filter(a + b, keep) == Filter(a, keep) + Filter(b, keep)
  {
    if a != [] {
      var head := if keep(a[0]) then [a[0]] else [];
      assert (a + b)[0] == a[0] && (a + b)[1..] == a[1..] + b;
      assert Filter(a + b, keep) == head + Filter(a[1..] + b, keep);
      FilterConcat(a[1..], b, keep);
      assert Filter(a, keep) == head + Filter(a[1..], keep);
    } else {
      assert a + b == b;
    }
  }

  lemma {:induction false} FilterCommute(d: seq<Entry>, f: Entry -> bool, g: Entry -> bool)
    ensures Filter(Filter(d, f), g) == Filter(Filter(d, g), f)
  {
    if d != [] {
      FilterCommute(d[1..], f, g);
      FilterConcat(if f(d[0]) then [d[0]] else [], Filter(d[1..], f), g);
      FilterConcat(if g(d[0]) then [d[0]] else [], Filter(d[1..], g), f);
    }
  }

  lemma {:induction false} FilterCongruent(d: seq<Entry>, f: Entry -> bool, g: Entry -> bool)
    requires forall x :: x in d ==> f(x) == g(x)
    ensures Filter(d, f) == Filter(d, g)
  {
    if d != [] {
      FilterCongruent(d[1..], f, g);
    }
  }

  lemma {:induction false} FilterAll(d: seq<Entry>, keep: Entry -> bool)
    requires forall x :: x in d ==> keep(x)
    ensures Filter(d, keep) == d
  {
    if d != [] {
      FilterAll(d[1..], keep);
    }
  }

  lemma {:induction false} FilterNone(d: seq<Entry>, keep: Entry -> bool)
    requires forall x :: x in d ==> !keep(x)
    ensures Filter(d, keep) == []
  {
    if d != [] {
      assert forall x :: x in d[1..] ==> x in d;
      FilterNone(d[1..], keep);
    }
  }

  lemma {:induction false} WithoutTwice(d: seq<Entry>, a: set<string>, b: set<string>)
    ensures Without(Without(d, a), b) == Without(d, a + b)
  {
    if d != [] {
      WithoutTwice(d[1..], a, b);
      FilterConcat(if d[0].name !in a then [d[0]] else [], Without(d[1..], a), NotNamed(b));
    }
  }

  /**
   * `os.path.exists`, `os.remove` and `open(.., 'wb')` on one directory, which
   * keeps its names distinct.
   */
  class Directory {
    var entries: seq<Entry>

    predicate Valid()
      reads this
    {
      DistinctNames(entries)
    }

    /** `os.remove`: the entry of that name goes, nothing else changes. */
    method Remove(name: string)
      requires Valid()
      modifies this
      ensures Valid() && entries == Without(old(entries), {name})
    {
      FilterDistinct(entries, NotNamed({name}));
      entries := Without(entries, {name});
    }

    /** Writing a whole file. */
    method Write(name: string, mtime: real, data: seq<Byte>)
      requires Valid()
      modifies this
      ensures Valid() && entries == Written(old(entries), name, mtime, data)
    {
      WrittenDistinct(entries, name, mtime, data);
      entries := Written(entries, name, mtime, data);
    }
  }

  lemma WrittenDistinct(d: seq<Entry>, name: string, mtime: real, data: seq<Byte>)
    requires DistinctNames(d)
    ensures DistinctNames(Written(d, name, mtime, data))
    ensures Exists(Written(d, name, mtime, data), name)
  {
    FilterDistinct(d, NotNamed({name}));
    var w := Written(d, name, mtime, data);
    var rest := Without(d, {name});
    forall i | 0 <= i < |rest| ensures rest[i].name != name {
      assert rest[i] in rest;
    }
    assert w[|w| - 1].name == name;
  }

  // ---------------------------------------------------------------------------
  // Cleanup of old temporary saves
  // ---------------------------------------------------------------------------

  predicate SortedByMtime(s: seq<Entry>) {
    forall i, j :: 0 <= i < j < |s| ==> s[i].mtime <= s[j].mtime
  }

  /** Inserting after the entries older than `x` and before the rest keeps `sorted` stable. */
  function Insert(x: Entry, s: seq<Entry>): seq<Entry> {
    if s == [] || x.mtime <= s[0].mtime then [x] + s else [s[0]] + Insert(x, s[1..])
  }

  lemma {:induction false} InsertSorted(x: Entry, s: seq<Entry>)
    requires SortedByMtime(s)
    ensures SortedByMtime(Insert(x, s))
    ensures multiset(Insert(x, s)) == multiset(s) + multiset{x}
  {
    InsertPermutation(x, s);
    if s != [] && x.mtime > s[0].mtime {
      InsertSorted(x, s[1..]);
      var t := Insert(x, s[1..]);
      forall k | 0 <= k < |t| ensures s[0].mtime <= t[k].mtime {
        assert t[k] in multiset(t);
        if t[k] != x {
          assert t[k] in s[1..];
        }
      }
      assert Insert(x, s) == [s[0]] + t;
    }
  }

  lemma {:induction false} InsertPermutation(x: Entry, s: seq<Entry>)
    ensures multiset(Insert(x, s)) == multiset(s) + multiset{x}
  {
    if s != [] && x.mtime > s[0].mtime {
      InsertPermutation(x, s[1..]);
      assert s == [s[0]] + s[1..];
    }
  }

  /** `sorted(files, key=lambda f: f.stat().st_mtime)`: oldest first, a permutation, ties in listing order. */
  function SortByMtime(s: seq<Entry>): (r: seq<Entry>)
    ensures SortedByMtime(r) && multiset(r) == multiset(s)
  {
    if s == [] then []
    else
      var t := SortByMtime(s[1..]);
      InsertSorted(s[0], t);
      assert s == [s[0]] + s[1..];
      Insert(s[0], t)
  }

  predicate IsCandidate(e: Entry, prefix: string) {
    e.isFile && prefix <= e.name
  }

  predicate IsExpired(e: Entry, now: real, maxAgeSecs: real) {
    now - e.mtime > maxAgeSecs
  }

  function CandidateOf(prefix: string): Entry -> bool {
    (e: Entry) => IsCandidate(e, prefix)
  }

  function Unexpired(prefix: string, now: real, maxAgeSecs: real): Entry -> bool {
    (e: Entry) => !(IsCandidate(e, prefix) && IsExpired(e, now, maxAgeSecs))
  }

  /** The listing cleanup sorts: regular files whose name starts with the prefix. */
  function Candidates(d: seq<Entry>, prefix: string): seq<Entry> {
    Filter(d, CandidateOf(prefix))
  }

  /** The directory after the first pass: every candidate older than the limit is gone. */
  function Expire(d: seq<Entry>, prefix: string, now: real, maxAgeSecs: real): seq<Entry> {
    Filter(d, Unexpired(prefix, now, maxAgeSecs))
  }

  /** The directory after the second pass: the oldest candidates beyond `maxFiles` are gone. */
  function Trim(d: seq<Entry>, prefix: string, maxFiles: nat): seq<Entry> {
    DropOldest(d, SortByMtime(Candidates(d, prefix)), maxFiles)
  }

  /** `d` without the names of all but the last `maxFiles` entries of the sorted listing `s`. */
  function DropOldest(d: seq<Entry>, s: seq<Entry>, maxFiles: nat): seq<Entry> {
    if |s| > maxFiles then Without(d, NamesOf(s[..|s| - maxFiles])) else d
  }

  function Cleanup(d: seq<Entry>, prefix: string, now: real, maxAgeSecs: real, maxFiles: nat): seq<Entry> {
    Trim(Expire(d, prefix, now, maxAgeSecs), prefix, maxFiles)
  }

  /** The names the first pass removes after visiting `fs`. */
  function ExpiredNames(fs: seq<Entry>, now: real, maxAgeSecs: real): set<string> {
    if fs == [] then {}
    else ExpiredNames(fs[..|fs| - 1], now, maxAgeSecs)
         + (if IsExpired(fs[|fs| - 1], now, maxAgeSecs) then {fs[|fs| - 1].name} else {})
  }

  lemma {:induction false} ExpiredNamesOf(fs: seq<Entry>, now: real, maxAgeSecs: real, n: string)
    ensures n in ExpiredNames(fs, now, maxAgeSecs) <==>
      exists i :: 0 <= i < |fs| && fs[i].name == n && IsExpired(fs[i], now, maxAgeSecs)
  {
    if fs != [] {
      var init := fs[..|fs| - 1];
      ExpiredNamesOf(init, now, maxAgeSecs, n);
      if n in ExpiredNames(init, now, maxAgeSecs) {
        var i :| 0 <= i < |init| && init[i].name == n && IsExpired(init[i], now, maxAgeSecs);
        assert fs[i] == init[i];
      }
      if exists i :: 0 <= i < |fs| && fs[i].name == n && IsExpired(fs[i], now, maxAgeSecs) {
        var i :| 0 <= i < |fs| && fs[i].name == n && IsExpired(fs[i], now, maxAgeSecs);
        if i < |fs| - 1 {
          assert init[i] == fs[i];
        }
      }
    }
  }

  /** Deleting the expired names of the sorted listing is the first pass's result. */
  lemma ExpireByNames(d: seq<Entry>, prefix: string, files: seq<Entry>, now: real, maxAgeSecs: real)
    requires DistinctNames(d)
    requires multiset(files) == multiset(Candidates(d, prefix))
    ensures Without(d, ExpiredNames(files, now, maxAgeSecs)) == Expire(d, prefix, now, maxAgeSecs)
  {
    var names := ExpiredNames(files, now, maxAgeSecs);
    forall x | x in d
      ensures (x.name !in names) == !(IsCandidate(x, prefix) && IsExpired(x, now, maxAgeSecs))
    {
      ExpiredNamesOf(files, now, maxAgeSecs, x.name);
      if x.name in names {
        var i :| 0 <= i < |files| && files[i].name == x.name && IsExpired(files[i], now, maxAgeSecs);
        assert files[i] in multiset(Candidates(d, prefix));
        SameNameSame(d, files[i], x);
      } else if IsCandidate(x, prefix) {
        assert x in multiset(files);
      }
    }
    FilterCongruent(d, NotNamed(names), Unexpired(prefix, now, maxAgeSecs));
  }

  lemma SameNameSame(d: seq<Entry>, x: Entry, y: Entry)
    requires DistinctNames(d) && x in d && y in d && x.name == y.name
    ensures x == y
  {
    var i :| 0 <= i < |d| && d[i] == x;
    var j :| 0 <= j < |d| && d[j] == y;
  }

  /** An entry occurring at most once in the listing. */
  lemma {:induction false} DistinctOnce(d: seq<Entry>, x: Entry)
    requires DistinctNames(d)
    ensures multiset(d)[x] <= 1
  {
    if d != [] {
      assert d == [d[0]] + d[1..];
      DistinctOnce(d[1..], x);
      if d[0] == x {
        assert x !in d[1..];
      }
    }
  }

  /** A rearrangement of a directory listing keeps its names distinct. */
  lemma PermutationDistinct(c: seq<Entry>, s: seq<Entry>)
    requires DistinctNames(c) && multiset(s) == multiset(c)
    ensures DistinctNames(s)
  {
    forall i, j | 0 <= i < |s| && 0 <= j < |s| && i != j
      ensures s[i].name != s[j].name
    {
      assert s[i] in multiset(c) && s[j] in multiset(c);
      if s[i] == s[j] {
        var lo, hi := if i < j then i else j, if i < j then j else i;
        assert s == s[..hi] + s[hi..];
        assert s[lo] in s[..hi] && s[hi] in s[hi..];
        assert multiset(s)[s[i]] >= 2 by {
          assert multiset(s) == multiset(s[..hi]) + multiset(s[hi..]);
        }
        DistinctOnce(c, s[i]);
      }
    }
  }

  /** Deleting the names of a prefix of a listing with distinct names leaves the rest of it. */
  lemma WithoutPrefix(s: seq<Entry>, k: nat)
    requires DistinctNames(s) && k <= |s|
    ensures Without(s, NamesOf(s[..k])) == s[k..]
  {
    var keep := NotNamed(NamesOf(s[..k]));
    assert s == s[..k] + s[k..];
    FilterConcat(s[..k], s[k..], keep);
    DropNamed(s[..k]);
    KeepUnnamed(s, k);
  }

  lemma DropNamed(p: seq<Entry>)
    ensures Filter(p, NotNamed(NamesOf(p))) == []
  {
    FilterNone(p, NotNamed(NamesOf(p)));
  }

  lemma KeepUnnamed(s: seq<Entry>, k: nat)
    requires DistinctNames(s) && k <= |s|
    ensures Filter(s[k..], NotNamed(NamesOf(s[..k]))) == s[k..]
  {
    var keep := NotNamed(NamesOf(s[..k]));
    forall y | y in s[k..] ensures keep(y) {
      var b :| 0 <= b < |s[k..]| && s[k..][b] == y;
      NotInPrefixNames(s, k, b);
    }
    FilterAll(s[k..], keep);
  }

  lemma NotInPrefixNames(s: seq<Entry>, k: nat, b: nat)
    requires DistinctNames(s) && k + b < |s|
    ensures s[k + b].name !in NamesOf(s[..k])
  {

  }

  /** `s` lists the candidates of `d`, in some order. */
  predicate Listing(s: seq<Entry>, d: seq<Entry>, prefix: string) {
    multiset(s) == multiset(Candidates(d, prefix))
  }

  /** Deleting the first `k` names of a listing leaves exactly the candidates after them, and every other entry. */
  lemma TrimKeeps(d: seq<Entry>, prefix: string, s: seq<Entry>, k: nat)
    requires DistinctNames(d) && Listing(s, d, prefix) && k <= |s|
    ensures var r := Without(d, NamesOf(s[..k]));
      && multiset(Candidates(r, prefix)) == multiset(s[k..])
      && (forall x :: x in d && !IsCandidate(x, prefix) ==> x in r)
  {
    var c := Candidates(d, prefix);
    var names := NamesOf(s[..k]);
    var notNamed := NotNamed(names);
    var cand := CandidateOf(prefix);
    FilterDistinct(d, cand);
    PermutationDistinct(c, s);
    FilterCommute(d, notNamed, cand);
    FilterPermutation(c, s, notNamed);
    WithoutPrefix(s, k);
    forall x | x in d && !IsCandidate(x, prefix) ensures x.name !in names {
      if x.name in names {
        var a :| 0 <= a < |s[..k]| && s[..k][a].name == x.name;
        assert s[a] in multiset(c);
        SameNameSame(d, s[a], x);
      }
    }
  }

  /**
   * `cleanup_old_drawings`: the first loop deletes every candidate older than
   * `maxAgeSecs` (strictly), the second re-lists and deletes the oldest
   * candidates beyond `maxFiles`.
   */
  method CleanupOldDrawings(dir: Directory, uid: string, now: real, maxAgeSecs: real, maxFiles: nat)
    requires dir.Valid()
    modifies dir
    ensures dir.Valid()
    ensures dir.entries == Cleanup(old(dir.entries), CleanupPrefix(uid), now, maxAgeSecs, maxFiles)
  {
    var prefix := CleanupPrefix(uid);
    DeleteExpired(dir, prefix, now, maxAgeSecs);
    DeleteExcess(dir, prefix, maxFiles);
  }

  /** The first loop of the cleanup. */
  method DeleteExpired(dir: Directory, prefix: string, now: real, maxAgeSecs: real)
    requires dir.Valid()
    modifies dir
    ensures dir.Valid()
    ensures dir.entries == Expire(old(dir.entries), prefix, now, maxAgeSecs)
  {
    ghost var d0 := dir.entries;
    var files := SortByMtime(Candidates(dir.entries, prefix));
    assert Without(d0, {}) == d0 by {
      FilterAll(d0, NotNamed({}));
    }
    var i := 0;
    while i < |files|
      invariant 0 <= i <= |files|
      invariant dir.Valid()
      invariant dir.entries == Without(d0, ExpiredNames(files[..i], now, maxAgeSecs))
    {
      DeleteIfExpired(dir, d0, files, i, now, maxAgeSecs);
      i := i + 1;
    }
    assert files[..i] == files;
    ExpireByNames(d0, prefix, files, now, maxAgeSecs);
  }

  /** One turn of the first loop: `files[i]` goes when it is older than the limit. */
  method DeleteIfExpired(dir: Directory, ghost d0: seq<Entry>, files: seq<Entry>, i: nat, now: real, maxAgeSecs: real)
    requires dir.Valid() && i < |files|
    requires dir.entries == Without(d0, ExpiredNames(files[..i], now, maxAgeSecs))
    modifies dir
    ensures dir.Valid()
    ensures dir.entries == Without(d0, ExpiredNames(files[..i + 1], now, maxAgeSecs))
  {
    assert files[..i + 1][..i] == files[..i];
    assert ExpiredNames(files[..i + 1], now, maxAgeSecs) == ExpiredNames(files[..i], now, maxAgeSecs)
      + (if IsExpired(files[i], now, maxAgeSecs) then {files[i].name} else {});
    var age := now - files[i].mtime;
    if age > maxAgeSecs {
      WithoutTwice(d0, ExpiredNames(files[..i], now, maxAgeSecs), {files[i].name});
      dir.Remove(files[i].name);
    } else {
      assert ExpiredNames(files[..i + 1], now, maxAgeSecs) == ExpiredNames(files[..i], now, maxAgeSecs);
    }
  }

  /** The second loop of the cleanup, over a fresh sorted listing. */
  method DeleteExcess(dir: Directory, prefix: string, maxFiles: nat)
    requires dir.Valid()
    modifies dir
    ensures dir.Valid()
    ensures dir.entries == Trim(old(dir.entries), prefix, maxFiles)
  {
    ghost var d1 := dir.entries;
    var files := SortByMtime(Candidates(dir.entries, prefix));
    if |files| > maxFiles {
      var excess := |files| - maxFiles;
      DropOldestUnfold(d1, files, maxFiles);
      assert Without(d1, {}) == d1 by {
        FilterAll(d1, NotNamed({}));
      }
      var j := 0;
      while j < excess
        invariant 0 <= j <= excess
        invariant dir.Valid()
        invariant dir.entries == Without(d1, NamesOf(files[..j]))
      {
        DeleteOldest(dir, d1, files, j);
        j := j + 1;
      }
    } else {
      assert Trim(d1, prefix, maxFiles) == d1;
    }
  }

  /** One turn of the second loop: `files[j]` goes. */
  method DeleteOldest(dir: Directory, ghost d1: seq<Entry>, files: seq<Entry>, j: nat)
    requires dir.Valid() && j < |files|
    requires dir.entries == Without(d1, NamesOf(files[..j]))
    modifies dir
    ensures dir.Valid()
    ensures dir.entries == Without(d1, NamesOf(files[..j + 1]))
  {
    WithoutStep(d1, files, j);
    dir.Remove(files[j].name);
  }

  /** Deleting the names of `files[..j]` and then `files[j]` deletes the names of `files[..j + 1]`. */
  lemma WithoutStep(d: seq<Entry>, files: seq<Entry>, j: nat)
    requires j < |files|
    ensures Without(Without(d, NamesOf(files[..j])), {files[j].name}) == Without(d, NamesOf(files[..j + 1]))
  {
    assert files[..j + 1][..j] == files[..j];
    WithoutTwice(d, NamesOf(files[..j]), {files[j].name});
  }

  /** After the first pass no candidate is older than the limit, and only candidates are gone. */
  lemma ExpireEffect(d: seq<Entry>, prefix: string, now: real, maxAgeSecs: real)
    ensures var e := Expire(d, prefix, now, maxAgeSecs);
      && (forall x :: x in e ==> x in d && !(IsCandidate(x, prefix) && IsExpired(x, now, maxAgeSecs)))
      && (forall x :: x in d && !IsCandidate(x, prefix) ==> x in e)
  {
  }

  /**
   * What a cleanup promises: it deletes only candidates, and none that
   * survives is expired.
   */
  lemma CleanupKeeps(d: seq<Entry>, prefix: string, now: real, maxAgeSecs: real, maxFiles: nat)
    requires DistinctNames(d)
    ensures var r := Cleanup(d, prefix, now, maxAgeSecs, maxFiles);
      && DistinctNames(r)
      && (forall x :: x in r ==> x in d)
      && (forall x :: x in d && !IsCandidate(x, prefix) ==> x in r)
      && (forall x :: x in r && IsCandidate(x, prefix) ==> !IsExpired(x, now, maxAgeSecs))
  {
    FilterDistinct(d, Unexpired(prefix, now, maxAgeSecs));
    TrimSubset(Expire(d, prefix, now, maxAgeSecs), prefix, maxFiles);
  }

  /** The second pass only deletes candidates. */
  lemma TrimSubset(e: seq<Entry>, prefix: string, maxFiles: nat)
    requires DistinctNames(e)
    ensures var r := Trim(e, prefix, maxFiles);
      && DistinctNames(r)
      && (forall x :: x in r ==> x in e)
      && (forall x :: x in e && !IsCandidate(x, prefix) ==> x in r)
  {
    TrimDistinct(e, prefix, maxFiles);
    TrimWithin(e, prefix, maxFiles);
    TrimKeepsOthers(e, prefix, maxFiles);
  }

  lemma TrimDistinct(e: seq<Entry>, prefix: string, maxFiles: nat)
    requires DistinctNames(e)
    ensures DistinctNames(Trim(e, prefix, maxFiles))
  {
    DropOldestDistinct(e, SortByMtime(Candidates(e, prefix)), maxFiles);
  }

  lemma DropOldestDistinct(d: seq<Entry>, s: seq<Entry>, maxFiles: nat)
    requires DistinctNames(d)
    ensures DistinctNames(DropOldest(d, s, maxFiles))
  {
    if |s| > maxFiles {
      FilterDistinct(d, NotNamed(NamesOf(s[..|s| - maxFiles])));
    }
  }

  lemma TrimWithin(e: seq<Entry>, prefix: string, maxFiles: nat)
    ensures forall x :: x in Trim(e, prefix, maxFiles) ==> x in e
  {
    DropOldestWithin(e, SortByMtime(Candidates(e, prefix)), maxFiles);
  }

  lemma DropOldestWithin(d: seq<Entry>, s: seq<Entry>, maxFiles: nat)
    ensures forall x :: x in DropOldest(d, s, maxFiles) ==> x in d
  {
  }

  lemma TrimKeepsOthers(e: seq<Entry>, prefix: string, maxFiles: nat)
    requires DistinctNames(e)
    ensures forall x :: x in e && !IsCandidate(x, prefix) ==> x in Trim(e, prefix, maxFiles)
  {
    DropOldestOthers(e, prefix, SortByMtime(Candidates(e, prefix)), maxFiles);
  }

  lemma DropOldestOthers(d: seq<Entry>, prefix: string, s: seq<Entry>, maxFiles: nat)
    requires DistinctNames(d) && Listing(s, d, prefix)
    ensures forall x :: x in d && !IsCandidate(x, prefix) ==> x in DropOldest(d, s, maxFiles)
  {
    if |s| > maxFiles {
      DropOldestUnfold(d, s, maxFiles);
      TrimKeeps(d, prefix, s, |s| - maxFiles);
    }
  }

  /** Beyond `maxFiles` entries of the listing, the second pass deletes the names of the first ones. */
  lemma DropOldestUnfold(d: seq<Entry>, s: seq<Entry>, maxFiles: nat)
    requires |s| > maxFiles
    ensures DropOldest(d, s, maxFiles) == Without(d, NamesOf(s[..|s| - maxFiles]))
  {
  }

  /** The second pass keeps `min(n, maxFiles)` of the `n` candidates the first pass left. */
  lemma CleanupCount(d: seq<Entry>, prefix: string, now: real, maxAgeSecs: real, maxFiles: nat)
    requires DistinctNames(d)
    ensures |Candidates(Cleanup(d, prefix, now, maxAgeSecs, maxFiles), prefix)|
            == MinI(|Candidates(Expire(d, prefix, now, maxAgeSecs), prefix)|, maxFiles)
  {
    FilterDistinct(d, Unexpired(prefix, now, maxAgeSecs));
    TrimCountMin(Expire(d, prefix, now, maxAgeSecs), prefix, maxFiles);
  }

  lemma TrimCountMin(e: seq<Entry>, prefix: string, maxFiles: nat)
    requires DistinctNames(e)
    ensures |Candidates(Trim(e, prefix, maxFiles), prefix)| == MinI(|Candidates(e, prefix)|, maxFiles)
  {
    DropOldestCount(e, prefix, SortByMtime(Candidates(e, prefix)), maxFiles);
  }

  lemma DropOldestCount(d: seq<Entry>, prefix: string, s: seq<Entry>, maxFiles: nat)
    requires DistinctNames(d) && Listing(s, d, prefix)
    ensures |Candidates(DropOldest(d, s, maxFiles), prefix)| == MinI(|Candidates(d, prefix)|, maxFiles)
  {
    ListingLength(s, d, prefix);
    if |s| > maxFiles {
      DropOldestExcess(d, prefix, s, maxFiles);
    }
  }

  lemma DropOldestExcess(d: seq<Entry>, prefix: string, s: seq<Entry>, maxFiles: nat)
    requires DistinctNames(d) && Listing(s, d, prefix) && |s| > maxFiles
    ensures |Candidates(DropOldest(d, s, maxFiles), prefix)| == maxFiles
  {
    DropOldestUnfold(d, s, maxFiles);
    TrimCount(d, prefix, s, |s| - maxFiles);
  }

  lemma ListingLength(s: seq<Entry>, d: seq<Entry>, prefix: string)
    requires Listing(s, d, prefix)
    ensures |s| == |Candidates(d, prefix)|
  {
    assert |multiset(s)| == |multiset(Candidates(d, prefix))|;
  }

  /** Every candidate the second pass dropped is no younger than every one it kept. */
  lemma CleanupOldestFirst(d: seq<Entry>, prefix: string, now: real, maxAgeSecs: real, maxFiles: nat)
    requires DistinctNames(d)
    ensures var e := Expire(d, prefix, now, maxAgeSecs);
      var r := Cleanup(d, prefix, now, maxAgeSecs, maxFiles);
      forall x, y :: x in Candidates(e, prefix) && x !in r && y in Candidates(r, prefix) ==> x.mtime <= y.mtime
  {
    FilterDistinct(d, Unexpired(prefix, now, maxAgeSecs));
    TrimOldestFirst(Expire(d, prefix, now, maxAgeSecs), prefix, maxFiles);
  }

  lemma TrimOldestFirst(e: seq<Entry>, prefix: string, maxFiles: nat)
    requires DistinctNames(e)
    ensures var r := Trim(e, prefix, maxFiles);
      forall x, y :: x in Candidates(e, prefix) && x !in r && y in Candidates(r, prefix) ==> x.mtime <= y.mtime
  {
    DropOldestFirst(e, prefix, SortByMtime(Candidates(e, prefix)), maxFiles);
  }

  lemma SortedLength(c: seq<Entry>)
    ensures |SortByMtime(c)| == |c|
  {
    assert |multiset(SortByMtime(c))| == |multiset(c)|;
  }

  lemma TrimCount(d: seq<Entry>, prefix: string, s: seq<Entry>, k: nat)
    requires DistinctNames(d) && Listing(s, d, prefix) && k <= |s|
    ensures |Candidates(Without(d, NamesOf(s[..k])), prefix)| == |s| - k
  {
    var kept := Candidates(Without(d, NamesOf(s[..k])), prefix);
    TrimKeeps(d, prefix, s, k);
    assert |multiset(kept)| == |multiset(s[k..])|;
  }

  /** Deleting from the front of a listing sorted oldest first drops no candidate younger than one it keeps. */
  lemma DropOldestFirst(d: seq<Entry>, prefix: string, s: seq<Entry>, maxFiles: nat)
    requires DistinctNames(d) && Listing(s, d, prefix) && SortedByMtime(s)
    ensures var r := DropOldest(d, s, maxFiles);
      forall x, y :: x in Candidates(d, prefix) && x !in r && y in Candidates(r, prefix) ==> x.mtime <= y.mtime
  {
    var r := DropOldest(d, s, maxFiles);
    forall x, y | x in Candidates(d, prefix) && x !in r && y in Candidates(r, prefix)
      ensures x.mtime <= y.mtime
    {
      DropOldestPair(d, prefix, s, maxFiles, x, y);
    }
  }

  lemma DropOldestPair(d: seq<Entry>, prefix: string, s: seq<Entry>, maxFiles: nat, x: Entry, y: Entry)
    requires DistinctNames(d) && Listing(s, d, prefix) && SortedByMtime(s)
    requires x in Candidates(d, prefix) && x !in DropOldest(d, s, maxFiles)
    requires y in Candidates(DropOldest(d, s, maxFiles), prefix)
    ensures x.mtime <= y.mtime
  {
    var c := Candidates(d, prefix);
    var k := |s| - maxFiles;
    var r := Without(d, NamesOf(s[..k]));
    DropOldestUnfold(d, s, maxFiles);
    assert x !in r && y in Candidates(r, prefix);
    TrimKeeps(d, prefix, s, k);
    assert y in multiset(s[k..]) by {
      assert y in multiset(Candidates(r, prefix));
    }
    FilterDistinct(d, CandidateOf(prefix));
    OldestPair(c, s, d, k, x, y);
  }

  lemma OldestPair(c: seq<Entry>, s: seq<Entry>, e: seq<Entry>, k: nat, x: Entry, y: Entry)
    requires DistinctNames(c) && multiset(s) == multiset(c) && SortedByMtime(s) && k <= |s|
    requires x in c && x in e && x !in Without(e, NamesOf(s[..k]))
    requires y in multiset(s[k..])
    ensures x.mtime <= y.mtime
  {
    assert x in multiset(s);
    var a :| 0 <= a < |s| && s[a] == x;
    var b :| 0 <= b < |s[k..]| && s[k..][b] == y;
    RemovedComesFirst(c, s, e, k, a);
    assert s[k + b] == y;
  }

  /** A candidate the second pass removed sits in the removed prefix of the sorted listing. */
  lemma RemovedComesFirst(c: seq<Entry>, s: seq<Entry>, e: seq<Entry>, k: nat, a: nat)
    requires DistinctNames(c) && multiset(s) == multiset(c) && k <= |s| && a < |s|
    requires s[a] in e && s[a] !in Without(e, NamesOf(s[..k]))
    ensures a < k
  {
    if a >= k {
      NotInPrefixNamesOf(c, s, k, a - k);
    }
  }

  lemma NotInPrefixNamesOf(c: seq<Entry>, s: seq<Entry>, k: nat, b: nat)
    requires DistinctNames(c) && multiset(s) == multiset(c) && k + b < |s|
    ensures s[k + b].name !in NamesOf(s[..k])
  {
    PermutationDistinct(c, s);
    NotInPrefixNames(s, k, b);
  }

  /** A second cleanup at the same moment deletes nothing more. */
  lemma CleanupIdempotent(d: seq<Entry>, prefix: string, now: real, maxAgeSecs: real, maxFiles: nat)
    requires DistinctNames(d)
    ensures var r := Cleanup(d, prefix, now, maxAgeSecs, maxFiles);
      Cleanup(r, prefix, now, maxAgeSecs, maxFiles) == r
  {
    var r := Cleanup(d, prefix, now, maxAgeSecs, maxFiles);
    CleanupKeeps(d, prefix, now, maxAgeSecs, maxFiles);
    CleanupCount(d, prefix, now, maxAgeSecs, maxFiles);
    FilterAll(r, Unexpired(prefix, now, maxAgeSecs));
    SortedLength(Candidates(r, prefix));
  }

  // ---------------------------------------------------------------------------
  // The routes
  // ---------------------------------------------------------------------------

  /** `s.split(',')[k]`: the `k`th comma-separated field, if there is one. */
  function CommaField(s: string, k: nat): (f: Option<string>)
    ensures f.Some? ==> |f.value| <= |s| && ',' !in f.value
    ensures k == 0 ==> f.Some? && (',' !in s ==> f.value == s)
    ensures k > 0 && ',' !in s ==> f.None?
  {
    if ',' !in s then (if k == 0 then Some(s) else None)
    else
      var i := FirstIndex(s, ',');
      if k == 0 then Some(s[..i]) else CommaField(s[i + 1..], k - 1)
  }

  /** The position of the first `c` in `s`. */
  function FirstIndex(s: string, c: char): (i: nat)
    requires c in s
    ensures i < |s| && s[i] == c && c !in s[..i]
  {
    if s[0] == c then 0 else 1 + FirstIndex(s[1..], c)
  }

  /** `s.split(',', 1)[1]`: everything after the first comma. */
  function AfterFirstComma(s: string): (f: Option<string>)
    ensures f.Some? <==> ',' in s
    ensures f.Some? ==> exists i :: 0 <= i < |s| && s[i] == ',' && ',' !in s[..i] && f.value == s[i + 1..]
  {
    if ',' in s then Some(s[FirstIndex(s, ',') + 1..]) else None
  }

  /** A JSON value read with `.get(key)`: absent keys are `None`. */
  function StrGet(o: Option<string>, default: string): string {
    o.GetOr(default)
  }

  /** The body of a POST to the save route. */
  datatype SaveRequest = SaveRequest(id: Option<string>, nodeId: Option<string>, drawingUid: Option<string>,
                                     imageData: Option<string>, workflowName: Option<string>, triggeredByUserSave: bool)

  datatype SaveResponse = SaveResponse(drawingUid: string, workflowName: string, isPermanent: bool,
                                       tempFilename: string, cacheFilename: string)

  datatype SaveError = InvalidImageData | MissingPayload | BadBase64

  /** `data.get('id') or data.get('node_id') or ''`. */
  function RequestNodeId(req: SaveRequest): string {
    if StrGet(req.id, "") != "" then req.id.value else StrGet(req.nodeId, "")
  }

  const DataImage: string := "data:image"
  const MaxAgeSecs: real := 3600.0
  const MaxFiles: nat := 50

  /**
   * `save_drawing`: reject data that is no image data URL or whose payload
   * does not decode, before touching any directory; otherwise clean up the
   * uid's old temporary saves, write the new one, and on a save the user
   * triggered also write the workflow's cache file, whose name is then the
   * response's cache name.
   */
  method SaveDrawing(tempDir: Directory, cacheDir: Directory, req: SaveRequest, now: real, stamp: nat,
                     uuid5: string -> string, random: string, b64decode: string -> Option<seq<Byte>>)
    returns (r: Result<SaveResponse, SaveError>)
    requires tempDir.Valid() && cacheDir.Valid() && tempDir != cacheDir
    modifies tempDir, cacheDir
    ensures tempDir.Valid() && cacheDir.Valid()
    ensures var data := StrGet(req.imageData, "");
      && (r == Err(InvalidImageData) <==> !(DataImage <= data))
      && (r == Err(MissingPayload) <==> DataImage <= data && CommaField(data, 1).None?)
      && (r == Err(BadBase64) <==> DataImage <= data && CommaField(data, 1).Some? && b64decode(CommaField(data, 1).value).None?)
    ensures r.Err? ==> tempDir.entries == old(tempDir.entries) && cacheDir.entries == old(cacheDir.entries)
    ensures r.Ok? ==>
      var uid := EnsureDrawingUid(StrGet(req.drawingUid, ""), RequestNodeId(req), uuid5, random);
      var bytes := b64decode(CommaField(StrGet(req.imageData, ""), 1).value).value;
      var cacheName := CacheName(SafeWorkflowName(StrGet(req.workflowName, "unknown_workflow")), uid);
      && r.value.drawingUid == uid
      && r.value.tempFilename == TempName(uid, stamp)
      && r.value.cacheFilename == (if req.triggeredByUserSave then cacheName else TempName(uid, stamp))
      && tempDir.entries == Written(Cleanup(old(tempDir.entries), CleanupPrefix(uid), now, MaxAgeSecs, MaxFiles),
                                    TempName(uid, stamp), now, bytes)
      && cacheDir.entries == (if req.triggeredByUserSave then Written(old(cacheDir.entries), cacheName, now, bytes)
                              else old(cacheDir.entries))
  {
    var workflowName := StrGet(req.workflowName, "unknown_workflow");
    var safeWorkflowName := SafeWorkflowName(workflowName);
    var uid := EnsureDrawingUid(StrGet(req.drawingUid, ""), RequestNodeId(req), uuid5, random);
    var imageData := StrGet(req.imageData, "");
    if !(DataImage <= imageData) {
      return Err(InvalidImageData);
    }
    var payload := CommaField(imageData, 1);
    if payload.None? {
      return Err(MissingPayload);
    }
    var bytes := b64decode(payload.value);
    if bytes.None? {
      return Err(BadBase64);
    }
    CleanupOldDrawings(tempDir, uid, now, MaxAgeSecs, MaxFiles);
    var tempFilename := TempName(uid, stamp);
    tempDir.Write(tempFilename, now, bytes.value);
    var cacheFilename := tempFilename;
    if req.triggeredByUserSave {
      cacheFilename := CacheName(safeWorkflowName, uid);
      cacheDir.Write(cacheFilename, now, bytes.value);
    }
    return Ok(SaveResponse(uid, workflowName, req.triggeredByUserSave, tempFilename, cacheFilename));
  }

  /** A save leaves at most `MaxFiles + 1` temporary saves of its uid: the kept ones and the new one. */
  lemma SaveBoundsTemporaries(d: seq<Entry>, uid: string, now: real, stamp: nat, bytes: seq<Byte>)
    requires DistinctNames(d)
    ensures var prefix := CleanupPrefix(uid);
      var w := Written(Cleanup(d, prefix, now, MaxAgeSecs, MaxFiles), TempName(uid, stamp), now, bytes);
      |Candidates(w, prefix)| <= MaxFiles + 1 && Exists(w, TempName(uid, stamp))
  {
    var prefix := CleanupPrefix(uid);
    var c := Cleanup(d, prefix, now, MaxAgeSecs, MaxFiles);
    CleanupCount(d, prefix, now, MaxAgeSecs, MaxFiles);
    CleanupKeeps(d, prefix, now, MaxAgeSecs, MaxFiles);
    var n := TempName(uid, stamp);
    var notNamed := NotNamed({n});
    var cand := CandidateOf(prefix);
    FilterConcat(Without(c, {n}), [Entry(n, now, true, bytes)], cand);
    FilterCommute(c, notNamed, cand);
    WrittenDistinct(c, n, now, bytes);
  }

  // ---------------------------------------------------------------------------
  // Permanent saves
  // ---------------------------------------------------------------------------

  predicate NoDotDot(s: string) {
    forall i :: 0 <= i < |s| - 1 ==> !(s[i] == '.' && s[i + 1] == '.')
  }

  /** `s.replace("..", "")`: occurrences are found left to right without overlap. */
  function RemoveDotDot(s: string): (r: string)
    ensures NoDotDot(r)
    ensures |s| > 0 && s[0] != '.' ==> |r| > 0 && r[0] == s[0]
    ensures forall i :: 0 <= i < |r| ==> r[i] in s
  {
    if |s| >= 2 && s[0] == '.' && s[1] == '.' then RemoveDotDot(s[2..])
    else if s == [] then []
    else [s[0]] + RemoveDotDot(s[1..])
  }

  predicate IsSlash(c: char) {
    c == '/' || c == '\\'
  }

  /** `s.lstrip("/\\")`. */
  function StripLeft(s: string): (r: string)
    ensures |r| <= |s| && r == s[|s| - |r|..]
    ensures r == [] || !IsSlash(r[0])
  {
    if s != [] && IsSlash(s[0]) then StripLeft(s[1..]) else s
  }

  /** `s.rstrip("/\\")`. */
  function StripRight(s: string): (r: string)
    ensures |r| <= |s| && r == s[..|r|]
    ensures r == [] || !IsSlash(r[|r| - 1])
  {
    if s != [] && IsSlash(s[|s| - 1]) then StripRight(s[..|s| - 1]) else s
  }

  /** `os.path.normpath(d).replace("..", "").strip("/\\")`, the normalisation a parameter. */
  function SaveDirectory(userDir: string, normpath: string -> string): string {
    StripRight(StripLeft(RemoveDotDot(normpath(userDir))))
  }

  /** Whatever `normpath` does, the directory has no `..` and neither starts nor ends with a slash. */
  lemma SaveDirectorySafe(userDir: string, normpath: string -> string)
    ensures var d := SaveDirectory(userDir, normpath);
      NoDotDot(d) && (d == [] || (!IsSlash(d[0]) && !IsSlash(d[|d| - 1])))
  {
    var a := RemoveDotDot(normpath(userDir));
    var b := StripLeft(a);
    var d := StripRight(b);
    NoDotDotSlice(a, |a| - |b|, |a|);
    NoDotDotSlice(b, 0, |d|);
    if d != [] {
      assert d[0] == b[0];
    }
  }

  lemma NoDotDotSlice(s: string, lo: nat, hi: nat)
    requires NoDotDot(s) && lo <= hi <= |s|
    ensures NoDotDot(s[lo..hi])
  {
    var t := s[lo..hi];
    forall i | 0 <= i < |t| - 1 ensures !(t[i] == '.' && t[i + 1] == '.') {
      assert t[i] == s[lo + i] && t[i + 1] == s[lo + i + 1];
    }
  }

  /** `os.path.basename` on POSIX: what follows the last `/`. */
  function Basename(p: string): (b: string)
    ensures '/' !in b && |b| <= |p| && b == p[|p| - |b|..]
    ensures '/' !in p ==> b == p
  {
    if p == [] then []
    else if p[|p| - 1] == '/' then []
    else Basename(p[..|p| - 1]) + [p[|p| - 1]]
  }

  /** The file name of a permanent save: `.png` appended unless present, then the basename. */
  function SaveFileName(filename: string): string {
    Basename(if EndsWithPng(filename) then filename else filename + PngSuffix)
  }

  /** `s.endswith(".png")`. */
  predicate EndsWithPng(s: string) {
    |s| >= 4 && s[|s| - 4..] == PngSuffix
  }

  /** The file name has no slash and ends in `.png`, and a name that is already one is kept. */
  lemma SaveFileNameShape(filename: string)
    ensures var f := SaveFileName(filename);
      '/' !in f && EndsWithPng(f)
      && (EndsWithPng(filename) && '/' !in filename ==> f == filename)
  {
    var full := if EndsWithPng(filename) then filename else filename + PngSuffix;
    assert EndsWithPng(full) by {
      if !EndsWithPng(filename) {
        assert full[|full| - 4..] == PngSuffix;
      }
    }
    BasenameKeepsSuffix(full);
  }

  lemma BasenameKeepsSuffix(p: string)
    requires EndsWithPng(p)
    ensures EndsWithPng(Basename(p))
  {
    assert p == p[..|p| - 4] + PngSuffix;
    BasenameAppend(p[..|p| - 4], PngSuffix);
  }

  /** A tail without a slash stays at the end of the basename. */
  lemma {:induction false} BasenameAppend(p: string, t: string)
    requires '/' !in t
    ensures Basename(p + t) == Basename(p) + t
  {
    if t != [] {
      var init, last := t[..|t| - 1], t[|t| - 1];
      assert t == init + [last] && last in t;
      BasenameAppend(p, init);
      assert p + t == (p + init) + [last];
      BasenameSnoc(p + init, last);
    } else {
      assert p + t == p;
    }
  }

  lemma BasenameSnoc(q: string, c: char)
    requires c != '/'
    ensures Basename(q + [c]) == Basename(q) + [c]
  {
    assert (q + [c])[..|q|] == q;
  }

  /** The POSIX path components of a relative path. */
  function Components(s: string): seq<string>
    decreases |s|
  {
    if '/' !in s then [s] else [s[..FirstIndex(s, '/')]] + Components(s[FirstIndex(s, '/') + 1..])
  }

  lemma {:induction false} ComponentsNoDotDot(s: string)
    requires NoDotDot(s)
    ensures forall c :: c in Components(s) ==> NoDotDot(c)
    decreases |s|
  {
    if '/' in s {
      var i := FirstIndex(s, '/');
      var rest := s[i + 1..];
      assert NoDotDot(rest) by {
        assert forall k :: 0 <= k < |rest| ==> rest[k] == s[i + 1 + k];
      }
      ComponentsNoDotDot(rest);
    }
  }

  lemma {:induction false} ComponentsAppend(dir: string, name: string)
    requires '/' !in name
    ensures Components(dir + "/" + name) == Components(dir) + [name]
    decreases |dir|
  {
    var p := dir + "/" + name;
    if '/' !in dir {
      ComponentsTwo(dir, name);
    } else {
      var i := FirstIndex(dir, '/');
      assert p[..i] == dir[..i];
      assert FirstIndex(p, '/') == i by {
        FirstIndexIs(p, '/', i);
      }
      assert p[i + 1..] == dir[i + 1..] + "/" + name;
      ComponentsAppend(dir[i + 1..], name);
    }
  }

  lemma ComponentsTwo(dir: string, name: string)
    requires '/' !in dir && '/' !in name
    ensures Components(dir + "/" + name) == [dir, name]
  {
    var p := dir + "/" + name;
    assert p[..|dir|] == dir;
    assert FirstIndex(p, '/') == |dir| by {
      FirstIndexIs(p, '/', |dir|);
    }
    assert p[|dir| + 1..] == name;
  }

  lemma FirstIndexIs(s: string, c: char, i: nat)
    requires i < |s| && s[i] == c && c !in s[..i]
    ensures FirstIndex(s, c) == i
  {
    var j := FirstIndex(s, c);
  }

  /** The save path relative to the output directory: `os.path.join(dir, name)`. */
  function PermanentRelPath(dir: string, name: string): string {
    if dir == [] then name else dir + "/" + name
  }

  /**
   * A permanent save cannot leave the output directory: its relative path
   * starts with no slash and none of its components is `..`; the last one is
   * the file name.
   */
  lemma PermanentPathContained(userDir: string, filename: string, normpath: string -> string)
    ensures var p := PermanentRelPath(SaveDirectory(userDir, normpath), SaveFileName(filename));
      && |p| > 0 && p[0] != '/'
      && (forall c :: c in Components(p) ==> c != "..")
      && Components(p)[|Components(p)| - 1] == SaveFileName(filename)
  {
    var d := SaveDirectory(userDir, normpath);
    var f := SaveFileName(filename);
    SaveDirectorySafe(userDir, normpath);
    SaveFileNameShape(filename);
    assert f != ".." by {
      assert f[|f| - 4..] == PngSuffix;
    }
    if d == [] {
      assert Components(f) == [f];
    } else {
      RelPathComponents(d, f);
    }
  }

  lemma RelPathComponents(d: string, f: string)
    requires d != [] && !IsSlash(d[0]) && NoDotDot(d)
    requires '/' !in f && f != ".."
    ensures var p := d + "/" + f;
      p[0] != '/' && (forall c :: c in Components(p) ==> c != "..") && Components(p)[|Components(p)| - 1] == f
  {
    var p := d + "/" + f;
    ComponentsAppend(d, f);
    ComponentsNoDotDot(d);
    assert p[0] == d[0];
    assert !NoDotDot("..") by {
      assert ".."[0] == '.' && ".."[1] == '.';
    }
  }

  datatype PermanentRequest = PermanentRequest(imageData: Option<string>, filename: Option<string>, saveDirectory: Option<string>)

  datatype PermanentError = MissingImageData | InvalidFormat | BadPayload

  /**
   * `save_drawing_permanent`: missing or empty data is refused, data without
   * a comma is refused, and an undecodable payload is refused; otherwise the
   * decoded bytes are written to the safe relative path.
   */
  method SavePermanent(out: Directory, req: PermanentRequest, now: real, normpath: string -> string,
                       b64decode: string -> Option<seq<Byte>>)
    returns (r: Result<string, PermanentError>)
    requires out.Valid()
    modifies out
    ensures out.Valid()
    ensures var data := StrGet(req.imageData, "");
      && (r == Err(MissingImageData) <==> data == "")
      && (r == Err(InvalidFormat) <==> data != "" && ',' !in data)
      && (r == Err(BadPayload) <==> data != "" && ',' in data && b64decode(AfterFirstComma(data).value).None?)
    ensures r.Err? ==> out.entries == old(out.entries)
    ensures r.Ok? ==>
      var path := PermanentRelPath(SaveDirectory(StrGet(req.saveDirectory, "default_save_dir"), normpath),
                                   SaveFileName(StrGet(req.filename, "drawing_saved.png")));
      && r.value == path
      && out.entries == Written(old(out.entries), path, now,
                                b64decode(AfterFirstComma(StrGet(req.imageData, "")).value).value)
  {
    var imageData := StrGet(req.imageData, "");
    if imageData == "" {
      return Err(MissingImageData);
    }
    var filename := SaveFileName(StrGet(req.filename, "drawing_saved.png"));
    var userDir := SaveDirectory(StrGet(req.saveDirectory, "default_save_dir"), normpath);
    var payload := AfterFirstComma(imageData);
    if payload.None? {
      return Err(InvalidFormat);
    }
    var bytes := b64decode(payload.value);
    if bytes.None? {
      return Err(BadPayload);
    }
    var path := PermanentRelPath(userDir, filename);
    out.Write(path, now, bytes.value);
    return Ok(path);
  }

  // ---------------------------------------------------------------------------
  // Loading
  // ---------------------------------------------------------------------------

  /** The cache file name the load route builds, as written: from the workflow name as given. */
  function LoadCacheNameAsWritten(workflowName: string, uid: string): (n: string)
    ensures n == CacheName(workflowName, uid)
  {
    DrawingPrefix + workflowName + "_" + uid + PngSuffix
  }

  /** A workflow name with a space: the load route asks for a file the save route never wrote. */
  lemma LoadMissesSavedCache()
    ensures LoadCacheNameAsWritten("my flow", "u") != CacheName(SafeWorkflowName("my flow"), "u")
  {
    assert LoadCacheNameAsWritten("my flow", "u")[10] == ' ';
    assert CacheName(SafeWorkflowName("my flow"), "u")[10] == '_';
  }

  /** The cache file name the load route evidently means: the one the save route writes. */
  function LoadCacheName(workflowName: string, uid: string): (n: string)
    ensures n == CacheName(SafeWorkflowName(workflowName), uid)
    ensures (forall i :: 0 <= i < |workflowName| ==> Allowed(workflowName[i])) ==> n == LoadCacheNameAsWritten(workflowName, uid)
  {
    SafeNameAllowed(workflowName);
    CacheName(SafeWorkflowName(workflowName), uid)
  }

  datatype LoadQuery = LoadQuery(drawingUid: Option<string>, drawingFilename: Option<string>, workflowName: Option<string>)

  datatype Served = FromTemp(tempName: string) | FromCache(cacheName: string)

  datatype LoadError = MissingUid

  /**
   * `load_drawing`: a query without a uid is refused; a named temporary save
   * that exists is served; otherwise the workflow's cache file is served.
   */
  function LoadDrawing(temp: seq<Entry>, q: LoadQuery): (r: Result<Served, LoadError>)
    ensures r.Err? <==> StrGet(q.drawingUid, "") == ""
    ensures r.Ok? && r.value.FromTemp? ==> Exists(temp, r.value.tempName) && q.drawingFilename == Some(r.value.tempName)
    ensures r.Ok? && r.value.FromCache? ==>
      r.value.cacheName == CacheName(SafeWorkflowName(StrGet(q.workflowName, "unknown_workflow")), q.drawingUid.value)
  {
    var uid := StrGet(q.drawingUid, "");
    if uid == "" then Err(MissingUid)
    else if q.drawingFilename.Some? && q.drawingFilename.value != "" && Exists(temp, q.drawingFilename.value) then
      Ok(FromTemp(q.drawingFilename.value))
    else Ok(FromCache(LoadCacheName(StrGet(q.workflowName, "unknown_workflow"), uid)))
  }

  /**
   * `load_drawing` as written: the same route, but the cache file name is
   * built from the workflow name as given (olm_sketch.py line 352).
   */
  function LoadDrawingAsWritten(temp: seq<Entry>, q: LoadQuery): (r: Result<Served, LoadError>)
    ensures r.Err? <==> StrGet(q.drawingUid, "") == ""
    ensures r.Ok? && r.value.FromTemp? ==> Exists(temp, r.value.tempName) && q.drawingFilename == Some(r.value.tempName)
    ensures r.Ok? && r.value.FromCache? ==>
      r.value.cacheName == CacheName(StrGet(q.workflowName, "unknown_workflow"), q.drawingUid.value)
  {
    var uid := StrGet(q.drawingUid, "");
    if uid == "" then Err(MissingUid)
    else if q.drawingFilename.Some? && q.drawingFilename.value != "" && Exists(temp, q.drawingFilename.value) then
      Ok(FromTemp(q.drawingFilename.value))
    else Ok(FromCache(LoadCacheNameAsWritten(StrGet(q.workflowName, "unknown_workflow"), uid)))
  }

  /**
   * The two routes refuse and serve temporary files alike, and serve the same
   * cache file whenever the workflow name needs no sanitising.
   */
  lemma LoadRoutesAgree(temp: seq<Entry>, q: LoadQuery)
    ensures LoadDrawing(temp, q).Err? <==> LoadDrawingAsWritten(temp, q).Err?
    ensures LoadDrawing(temp, q).Ok? && LoadDrawing(temp, q).value.FromTemp? ==> LoadDrawing(temp, q) == LoadDrawingAsWritten(temp, q)
    ensures (forall i :: 0 <= i < |StrGet(q.workflowName, "unknown_workflow")| ==> Allowed(StrGet(q.workflowName, "unknown_workflow")[i]))
      ==> LoadDrawing(temp, q) == LoadDrawingAsWritten(temp, q)
  {
  }

  /**
   * For the workflow `my flow`, a load whose temporary file is gone asks, as
   * written, for a cache file other than the one a user save wrote.
   */
  lemma LoadDrawingAsWrittenMissesSave(temp: seq<Entry>, drawingFilename: string)
    requires !Exists(temp, drawingFilename)
    ensures LoadDrawingAsWritten(temp, LoadQuery(Some("u"), Some(drawingFilename), Some("my flow")))
      != Ok(FromCache(CacheName(SafeWorkflowName("my flow"), "u")))
  {
    LoadMissesSavedCache();
  }

  /** Where `generate_drawing` reads the drawing from. */
  datatype Source = Temp(name: string) | Cache(name: string) | Blank

  /**
   * `generate_drawing`'s choice: the named temporary file if it exists; if
   * not, the workflow's cache file if that exists; otherwise a blank canvas.
   * An empty name is the temporary directory itself, which exists, so the
   * cache is not consulted and opening the directory fails.
   */
  function DrawingSource(temp: seq<Entry>, cache: seq<Entry>, drawingFilename: string, workflowName: string, uid: string): (s: Source)
    ensures s.Temp? ==> Exists(temp, s.name) && s.name == drawingFilename
    ensures s.Cache? ==> Exists(cache, s.name) && s.name == CacheName(SafeWorkflowName(workflowName), uid)
    ensures s.Blank? <==> (drawingFilename == "" ||
      (!Exists(temp, drawingFilename) && !Exists(cache, CacheName(SafeWorkflowName(workflowName), uid))))
  {
    if drawingFilename == "" then Blank
    else if Exists(temp, drawingFilename) then Temp(drawingFilename)
    else if Exists(cache, CacheName(SafeWorkflowName(workflowName), uid)) then Cache(CacheName(SafeWorkflowName(workflowName), uid))
    else Blank
  }

  /**
   * A save the user triggered is what a later run of the node and a load
   * find when their temporary file is gone: both read the cache file the
   * save wrote, for the uid the save returned.
   */
  lemma SavedCacheIsFound(temp: seq<Entry>, cache: seq<Entry>, drawingFilename: string, workflowName: string,
                          uid: string, nodeId: string, uuid5: string -> string, random: string, now: real, bytes: seq<Byte>)
    requires uid != "" && uid != AutoGenerate
    requires drawingFilename != "" && !Exists(temp, drawingFilename)
    ensures var written := Written(cache, CacheName(SafeWorkflowName(workflowName), uid), now, bytes);
      var u := EnsureDrawingUid(uid, nodeId, uuid5, random);
      && DrawingSource(temp, written, drawingFilename, workflowName, u) == Cache(CacheName(SafeWorkflowName(workflowName), uid))
      && LoadDrawing(temp, LoadQuery(Some(u), Some(drawingFilename), Some(workflowName)))
         == Ok(FromCache(CacheName(SafeWorkflowName(workflowName), uid)))
  {
    var n := CacheName(SafeWorkflowName(workflowName), uid);
    var written := Written(cache, n, now, bytes);
    assert written[|written| - 1].name == n;
  }
}
