/** Chunking by module boundary: a stable sort on (directory, extension), then hunk-level
    chunking (src/diff/chunker.rs, `semantic_chunk`). */
module SemanticChunking {
  import opened Sequences
  import opened DiffModel
  import opened Chunking
  import opened ChunkingProperties

  datatype ModuleKey = ModuleKey(dir: string, ext: string)

  /** The position of the last `c` in `s`. */
  function LastIndex(s: string, c: char): (r: Option<nat>)
    ensures r.Some? ==> r.value < |s| && s[r.value] == c && c !in s[r.value + 1..]
    ensures r.None? ==> c !in s
  {
    if s == [] then None
    else if s[|s| - 1] == c then Some(|s| - 1)
    else LastIndex(s[..|s| - 1], c)
  }

  function DirOf(path: string): string {
    match LastIndex(path, '/')
    case Some(i) => path[..i]
    case None => ""
  }

  function NameOf(path: string): string {
    match LastIndex(path, '/')
    case Some(i) => path[i + 1..]
    case None => path
  }

  function ExtOf(name: string): string {
    match LastIndex(name, '.')
    case Some(i) => name[i + 1..]
    case None => ""
  }

  function PathKey(path: string): ModuleKey {
    ModuleKey(DirOf(path), ExtOf(NameOf(path)))
  }

  function KeyOf(file: DiffFile): ModuleKey {
    PathKey(file.newPath)
  }

  lemma DirAndName(path: string)
    ensures '/' !in NameOf(path)
    ensures (path == NameOf(path) && DirOf(path) == "") || path == DirOf(path) + ['/'] + NameOf(path)
  {
    AroundLast(path, '/');
  }

  lemma StemAndExt(name: string)
    ensures '.' !in ExtOf(name)
    ensures if '.' in name then exists stem :: name == stem + ['.'] + ExtOf(name) else ExtOf(name) == ""
  {
    AroundLast(name, '.');
    if '.' in name {
      assert name == name[..LastIndex(name, '.').value] + ['.'] + ExtOf(name);
    }
  }

  /** The key on the path itself: the directory is everything before the last slash, and the extension
      everything after the last dot of the name behind it. */
  lemma KeyParts(file: DiffFile) returns (name: string)
    ensures '/' !in name
    ensures (file.newPath == name && KeyOf(file).dir == "") || file.newPath == KeyOf(file).dir + ['/'] + name
    ensures '.' !in KeyOf(file).ext
    ensures if '.' in name then exists stem :: name == stem + ['.'] + KeyOf(file).ext else KeyOf(file).ext == ""
  {
    name := NameOf(file.newPath);
    DirAndName(file.newPath);
    StemAndExt(name);
  }

  lemma AroundLast(s: string, c: char)
    ensures var r := LastIndex(s, c);
      if r.Some? then s == s[..r.value] + [c] + s[r.value + 1..] && c !in s[r.value + 1..] else c !in s
  {
  }

  /** Strings compare character by character. */
  predicate Leq(a: string, b: string) {
    a == [] || (b != [] && (a[0] < b[0] || (a[0] == b[0] && Leq(a[1..], b[1..]))))
  }

  predicate KeyLeq(a: ModuleKey, b: ModuleKey) {
    if a.dir == b.dir then Leq(a.ext, b.ext) else Leq(a.dir, b.dir)
  }

  lemma {:induction false} LeqTotal(a: string, b: string)
    ensures Leq(a, b) || Leq(b, a)
    ensures Leq(a, b) && Leq(b, a) <==> a == b
  {
    if a != [] && b != [] {
      LeqTotal(a[1..], b[1..]);
      assert a == [a[0]] + a[1..] && b == [b[0]] + b[1..];
    }
  }

  lemma {:induction false} LeqTransitive(a: string, b: string, c: string)
    requires Leq(a, b) && Leq(b, c)
    ensures Leq(a, c)
  {
    if a != [] && a[0] == b[0] == c[0] {
      LeqTransitive(a[1..], b[1..], c[1..]);
    }
  }

  lemma KeyLeqTotal(a: ModuleKey, b: ModuleKey)
    ensures KeyLeq(a, b) || KeyLeq(b, a)
    ensures KeyLeq(a, b) && KeyLeq(b, a) <==> a == b
  {
    LeqTotal(a.dir, b.dir);
    LeqTotal(a.ext, b.ext);
  }

  lemma KeyLeqTransitive(a: ModuleKey, b: ModuleKey, c: ModuleKey)
    requires KeyLeq(a, b) && KeyLeq(b, c)
    ensures KeyLeq(a, c)
  {
    LeqTotal(a.dir, b.dir);
    LeqTotal(b.dir, c.dir);
    LeqTotal(a.dir, c.dir);
    if a.dir == b.dir == c.dir {
      LeqTransitive(a.ext, b.ext, c.ext);
    } else {
      LeqTransitive(a.dir, b.dir, c.dir);
    }
  }

  type Keying = DiffFile -> ModuleKey

  function Insert(key: Keying, f: DiffFile, files: seq<DiffFile>): seq<DiffFile> {
    if files == [] || KeyLeq(key(f), key(files[0])) then [f] + files
    else [files[0]] + Insert(key, f, files[1..])
  }

  /** The standard library's stable sort, as the only list `StableSortUnique` allows it to return. */
  function SortBy(key: Keying, files: seq<DiffFile>): seq<DiffFile> {
    if files == [] then [] else Insert(key, files[0], SortBy(key, files[1..]))
  }

  ghost predicate Sorted(key: Keying, files: seq<DiffFile>) {
    forall i, j :: 0 <= i < j < |files| ==> KeyLeq(key(files[i]), key(files[j]))
  }

  /** The files of one module, in the order they occur. */
  function Group(key: Keying, files: seq<DiffFile>, k: ModuleKey): seq<DiffFile> {
    if files == [] then []
    else (if key(files[0]) == k then [files[0]] else []) + Group(key, files[1..], k)
  }

  lemma {:induction false} InsertSorted(key: Keying, f: DiffFile, files: seq<DiffFile>)
    requires Sorted(key, files)
    ensures Sorted(key, Insert(key, f, files))
    ensures forall g :: g in Insert(key, f, files) <==> g == f || g in files
  {
    if files == [] {
    } else if KeyLeq(key(f), key(files[0])) {
      forall i | 0 <= i < |files| ensures KeyLeq(key(f), key(files[i])) {
        if i > 0 { KeyLeqTransitive(key(f), key(files[0]), key(files[i])); }
      }
    } else {
      InsertSorted(key, f, files[1..]);
      KeyLeqTotal(key(f), key(files[0]));
      var tail := Insert(key, f, files[1..]);
      forall i | 0 <= i < |tail| ensures KeyLeq(key(files[0]), key(tail[i])) {
        assert tail[i] in tail;
      }
    }
  }

  lemma {:induction false} InsertGroup(key: Keying, f: DiffFile, files: seq<DiffFile>, k: ModuleKey)
    ensures Group(key, Insert(key, f, files), k) == (if key(f) == k then [f] else []) + Group(key, files, k)
  {
    if files == [] || KeyLeq(key(f), key(files[0])) {
      assert ([f] + files)[1..] == files;
    } else {
      InsertGroup(key, f, files[1..], k);
      KeyLeqTotal(key(f), key(files[0]));
      assert Insert(key, f, files)[1..] == Insert(key, f, files[1..]);
    }
  }

  lemma {:induction false} InsertPairs(key: Keying, f: DiffFile, files: seq<DiffFile>)
    ensures multiset(PairsOf(Insert(key, f, files))) == multiset(f.HunkPairs()) + multiset(PairsOf(files))
  {
    if files == [] || KeyLeq(key(f), key(files[0])) {
      assert ([f] + files)[1..] == files;
    } else {
      InsertPairs(key, f, files[1..]);
      assert Insert(key, f, files)[1..] == Insert(key, f, files[1..]);
    }
  }

  /** The sort orders the files by module, keeps the incoming order within each module, and
      keeps every (file, hunk) pair. */
  lemma {:induction false} SortIsStable(key: Keying, files: seq<DiffFile>, k: ModuleKey)
    ensures Sorted(key, SortBy(key, files))
    ensures Group(key, SortBy(key, files), k) == Group(key, files, k)
    ensures multiset(PairsOf(SortBy(key, files))) == multiset(PairsOf(files))
  {
    if files != [] {
      SortIsStable(key, files[1..], k);
      InsertSorted(key, files[0], SortBy(key, files[1..]));
      InsertGroup(key, files[0], SortBy(key, files[1..]), k);
      InsertPairs(key, files[0], SortBy(key, files[1..]));
    }
  }

  lemma {:induction false} GroupMember(key: Keying, files: seq<DiffFile>, i: nat)
    requires i < |files|
    ensures files[i] in Group(key, files, key(files[i]))
  {
    if i > 0 { GroupMember(key, files[1..], i - 1); }
  }

  lemma {:induction false} GroupOrigin(key: Keying, files: seq<DiffFile>, k: ModuleKey, f: DiffFile)
    requires f in Group(key, files, k)
    ensures f in files && key(f) == k
  {
    if !(key(files[0]) == k && f == files[0]) { GroupOrigin(key, files[1..], k, f); }
  }

  lemma FirstKeyLeq(key: Keying, a: seq<DiffFile>, b: seq<DiffFile>)
    requires Sorted(key, b) && a != [] && Group(key, a, key(a[0])) == Group(key, b, key(a[0]))
    ensures b != [] && KeyLeq(key(b[0]), key(a[0]))
  {
    GroupMember(key, a, 0);
    GroupOrigin(key, b, key(a[0]), a[0]);
    var i :| 0 <= i < |b| && b[i] == a[0];
    KeyLeqTotal(key(a[0]), key(a[0]));
  }

  /** Sortedness and stability leave no choice: any such sort returns the same list. */
  lemma {:induction false} StableSortUnique(key: Keying, a: seq<DiffFile>, b: seq<DiffFile>)
    requires Sorted(key, a) && Sorted(key, b)
    requires forall k :: Group(key, a, k) == Group(key, b, k)
    ensures a == b
  {
    if a == [] {
      if b != [] { FirstKeyLeq(key, b, a); }
    } else {
      FirstKeyLeq(key, a, b);
      FirstKeyLeq(key, b, a);
      KeyLeqTotal(key(a[0]), key(b[0]));
      assert Group(key, a, key(a[0]))[0] == a[0] && Group(key, b, key(a[0]))[0] == b[0];
      forall k ensures Group(key, a[1..], k) == Group(key, b[1..], k) {
        assert Group(key, a, k) == Group(key, b, k);
        var head := if key(a[0]) == k then [a[0]] else [];
        assert Group(key, a, k)[|head|..] == Group(key, a[1..], k);
        assert Group(key, b, k)[|head|..] == Group(key, b[1..], k);
      }
      StableSortUnique(key, a[1..], b[1..]);
    }
  }

  /** Files of one module are adjacent after the sort. */
  lemma ModulesAdjacent(files: seq<DiffFile>, i: nat, j: nat, k: nat)
    requires i <= j <= k < |SortByModule(files)|
    requires KeyOf(SortByModule(files)[i]) == KeyOf(SortByModule(files)[k])
    ensures KeyOf(SortByModule(files)[j]) == KeyOf(SortByModule(files)[k])
  {
    SortIsStable(KeyOf, files, ModuleKey("", ""));
    EqualKeysAdjacent(KeyOf, SortByModule(files), i, j, k);
  }

  lemma EqualKeysAdjacent(key: Keying, s: seq<DiffFile>, i: nat, j: nat, k: nat)
    requires Sorted(key, s) && i <= j <= k < |s| && key(s[i]) == key(s[k])
    ensures key(s[j]) == key(s[k])
  {
    if i < j < k {
      KeyLeqTotal(key(s[i]), key(s[j]));
    }
  }

  function SortByModule(files: seq<DiffFile>): seq<DiffFile> {
    SortBy(KeyOf, files)
  }

  /** The files in module order, those of one module in the order they came. */
  ghost predicate StablyByModule(files: seq<DiffFile>, order: seq<DiffFile>) {
    Sorted(KeyOf, order) && forall k :: Group(KeyOf, order, k) == Group(KeyOf, files, k)
  }

  lemma SortedByModule(files: seq<DiffFile>)
    ensures StablyByModule(files, SortByModule(files))
  {
    forall k ensures Group(KeyOf, SortByModule(files), k) == Group(KeyOf, files, k) {
      SortIsStable(KeyOf, files, k);
    }
    SortIsStable(KeyOf, files, ModuleKey("", ""));
  }

  lemma {:induction false} UnfoldOrigin(c: Chunker, files: seq<DiffFile>, i: nat)
    requires i < |UnfoldAll(c, files)|
    ensures exists f :: f in files && f.Identity() == UnfoldAll(c, files)[i].Identity()
  {
    LostFile(c, files[0]);
    var n := |Unfold(c, files[0])|;
    if i < n {
      assert UnfoldAll(c, files)[i] == Unfold(c, files[0])[i];
      assert files[0] in files;
    } else {
      UnfoldOrigin(c, files[1..], i - n);
      var f :| f in files[1..] && f.Identity() == UnfoldAll(c, files[1..])[i - n].Identity();
      assert f in files;
    }
  }

  lemma SameKey(a: DiffFile, b: DiffFile)
    requires a.Identity() == b.Identity()
    ensures KeyOf(a) == KeyOf(b)
  {
    assert a.newPath == b.newPath;
  }

  /** Cutting files at hunks keeps the module order. */
  lemma {:induction false} UnfoldSorted(c: Chunker, files: seq<DiffFile>)
    requires Sorted(KeyOf, files)
    ensures Sorted(KeyOf, UnfoldAll(c, files))
  {
    if files != [] {
      var head, tail := Unfold(c, files[0]), UnfoldAll(c, files[1..]);
      UnfoldSorted(c, files[1..]);
      LostFile(c, files[0]);
      KeyLeqTotal(KeyOf(files[0]), KeyOf(files[0]));
      forall i | 0 <= i < |head| ensures KeyOf(head[i]) == KeyOf(files[0]) {
        SameKey(head[i], files[0]);
      }
      forall j | 0 <= j < |tail| ensures KeyLeq(KeyOf(files[0]), KeyOf(tail[j])) {
        UnfoldOrigin(c, files[1..], j);
        var f :| f in files[1..] && f.Identity() == tail[j].Identity();
        SameKey(f, tail[j]);
      }
    }
  }

  method SemanticChunk(c: Chunker, files: seq<DiffFile>) returns (chunks: seq<DiffChunk>)
    ensures chunks == c.ByHunks(SortByModule(files))
    ensures multiset(ChunkPairs(chunks)) == multiset(PairsOf(files))
  {
    var sorted := SortByModule(files);
    chunks := c.ChunkByHunks(sorted);
    ByHunksConserves(c, sorted);
    SortIsStable(KeyOf, files, ModuleKey("", ""));
  }
}
