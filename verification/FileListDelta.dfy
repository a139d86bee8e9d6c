/**
 File lists: insertion without duplicates, and the list of files another system lacks or has in a
 different version.
 */
module FileListDelta {
  import opened Sequences

  datatype Context = Context(
    op: nat, extra1: nat, extra2: nat, extra3: nat, dataPtr: Option<seq<byte>>, dataLength: nat)

  const NO_CONTEXT := Context(0, 0, 0, 0, None, 0)

  /** `FileListNode`; `data` is `None` for a null pointer and else holds `dataLengthBytes` bytes. */
  datatype File = File(
    filename: string,
    fullPathToFile: string,
    data: Option<seq<byte>>,
    dataLengthBytes: nat,
    fileLengthBytes: nat,
    isAReference: bool,
    context: Context)

  const MAX_FILENAME_LENGTH: nat := 512

  ghost predicate DistinctNames(files: seq<File>) {
    forall i: nat, j: nat :: i < j < |files| ==> files[i].filename != files[j].filename
  }

  /** Stored data has the stored length. */
  ghost predicate StoredOk(files: seq<File>) {
    forall i: nat :: i < |files| ==>
      (files[i].data.Some? ==> |files[i].data.value| == files[i].dataLengthBytes)
  }

  // ---- AddFile ----

  /** The node `AddFile` makes of its arguments. */
  function NewNode(filename: string, fullPath: string, data: Option<seq<byte>>, dataLength: nat, fileLength: nat,
                   context: Context, isAReference: bool): File
    requires data.Some? ==> dataLength <= |data.value|
  {
    var stored := if dataLength > 0 && data.Some? then Some(data.value[..dataLength]) else None;
    var c := if context.dataPtr.None? then context.(dataPtr := stored) else context;
    File(filename, fullPath, stored, dataLength, fileLength, isAReference,
         if c.dataLength == 0 then c.(dataLength := dataLength) else c)
  }

  /**
   A node keeps the first `dataLength` bytes, if there are any, and fills in what the caller's
   context leaves open.
   */
  lemma NodeOfArguments(filename: string, fullPath: string, data: Option<seq<byte>>, dataLength: nat, fileLength: nat,
                        context: Context, isAReference: bool)
    requires data.Some? ==> dataLength <= |data.value|
    ensures var n := NewNode(filename, fullPath, data, dataLength, fileLength, context, isAReference);
      && n.filename == filename && n.fullPathToFile == fullPath && n.isAReference == isAReference
      && n.dataLengthBytes == dataLength && n.fileLengthBytes == fileLength
      && (n.data.Some? <==> data.Some? && dataLength > 0)
      && (n.data.Some? ==> n.data.value == data.value[..dataLength] && StoredOk([n]))
      && n.context.op == context.op && n.context.extra1 == context.extra1
      && n.context.extra2 == context.extra2 && n.context.extra3 == context.extra3
      && n.context.dataPtr == (if context.dataPtr.Some? then context.dataPtr else n.data)
      && n.context.dataLength == (if context.dataLength > 0 then context.dataLength else dataLength)
  {
    var n := NewNode(filename, fullPath, data, dataLength, fileLength, context, isAReference);
    assert [n][0] == n;
  }

  /** The file already stored is the one being added, as far as both hold bytes to compare. */
  predicate Unchanged(stored: File, n: File) {
    && stored.fileLengthBytes == n.fileLengthBytes
    && stored.dataLengthBytes == n.dataLengthBytes
    && (n.dataLengthBytes == 0 || stored.data.None? || stored.data == n.data)
  }

  ghost predicate NameAt(files: seq<File>, name: string, k: nat) {
    && k < |files| && files[k].filename == name
    && forall j: nat :: j < k ==> files[j].filename != name
  }

  /** Position of the first file with that name, or the length of the list. */
  function IndexOfName(files: seq<File>, name: string): (k: nat)
    ensures k <= |files|
    ensures k < |files| ==> NameAt(files, name, k)
    ensures k == |files| ==> forall j: nat :: j < |files| ==> files[j].filename != name
  {
    if files == [] || files[0].filename == name then 0 else 1 + IndexOfName(files[1..], name)
  }

  function Add(files: seq<File>, n: File): seq<File> {
    var k := IndexOfName(files, n.filename);
    if |n.filename| > MAX_FILENAME_LENGTH then files
    else if k == |files| then files + [n]
    else if Unchanged(files[k], n) then files
    else RemoveAt(files, k) + [n]
  }

  /** Adding keeps names distinct. */
  lemma AddKeepsDistinct(files: seq<File>, n: File)
    requires DistinctNames(files)
    ensures DistinctNames(Add(files, n))
  {
    var k := IndexOfName(files, n.filename);
    if k < |files| {
      assert forall j: nat :: j < |files| && j != k ==> files[j].filename != n.filename;
      assert forall j: nat :: j < |files| - 1 ==> RemoveAt(files, k)[j] == files[if j < k then j else j + 1];
    }
  }

  /**
   After adding, the list holds exactly one file of that name: the new one, unless an old one has
   the same two lengths and, if there are bytes on both sides, the same bytes. Every other file is kept.
   */
  lemma AddStores(files: seq<File>, n: File, stored: File)
    requires DistinctNames(files) && |n.filename| <= MAX_FILENAME_LENGTH
    ensures stored in files && stored.filename == n.filename ==>
      (stored in Add(files, n) <==>
        (stored == n ||
          (stored.fileLengthBytes == n.fileLengthBytes && stored.dataLengthBytes == n.dataLengthBytes
           && (n.dataLengthBytes == 0 || stored.data.None? || stored.data == n.data))))
    ensures stored !in files && stored.filename == n.filename ==> (stored in Add(files, n) ==> stored == n)
    ensures exists f :: f in Add(files, n) && f.filename == n.filename
    ensures stored.filename != n.filename ==> (stored in Add(files, n) <==> stored in files)
  {
    var k := IndexOfName(files, n.filename);
    var after := Add(files, n);
    if k == |files| {
      AppendMembers(files, n);
      assert n in after;
    } else if Unchanged(files[k], n) {
      assert files[k] in files;
      assert forall f :: f in files && f.filename == n.filename ==> f == files[k];
    } else {
      AppendMembers(RemoveAt(files, k), n);
      RemoveNameMembers(files, k);
      assert files[k] in files && n in after;
      assert forall f :: f in files && f.filename == n.filename ==> f == files[k];
    }
  }

  /** Adding the same file again changes nothing. */
  lemma AddTwice(files: seq<File>, n: File)
    requires DistinctNames(files)
    ensures Add(Add(files, n), n) == Add(files, n)
  {
    var after := Add(files, n);
    var k := IndexOfName(files, n.filename);
    if |n.filename| <= MAX_FILENAME_LENGTH && after != files {
      var last := |after| - 1;
      assert after[last] == n;
      AddKeepsDistinct(files, n);
      assert IndexOfName(after, n.filename) == last;
    }
  }

  lemma AppendMembers(files: seq<File>, n: File)
    ensures forall f :: f in files + [n] <==> f in files || f == n
  {}

  lemma RemoveNameMembers(files: seq<File>, k: nat)
    requires DistinctNames(files) && k < |files|
    ensures forall f :: f in RemoveAt(files, k) <==> f in files && f.filename != files[k].filename
  {
    var rest := RemoveAt(files, k);
    assert forall j: nat :: j < |rest| ==> rest[j] == files[if j < k then j else j + 1];
    assert forall j: nat :: j < |files| && j != k ==> files[j].filename != files[k].filename;
    forall f | f in files && f.filename != files[k].filename ensures f in rest {
      var j :| 0 <= j < |files| && files[j] == f;
      assert rest[if j < k then j else j - 1] == f;
    }
  }

  // ---- names ----

  predicate IsSlash(c: char) { c == '/' || c == '\\' }

  function ToLower(c: char): char {
    if 'A' <= c <= 'Z' then c + 32 as char else c
  }

  function Fold(s: string): (r: string)
    ensures |r| == |s|
    ensures forall k: nat :: k < |s| ==> r[k] == ToLower(s[k])
  {
    seq(|s|, k requires 0 <= k < |s| => ToLower(s[k]))
  }

  /** Everything up to the last slash: `LocalPathLen` is its position, or zero without one. */
  ghost predicate LastSlash(name: string, k: nat) {
    && k < |name| && IsSlash(name[k])
    && forall j: nat :: k < j < |name| ==> !IsSlash(name[j])
  }

  method LocalPathLen(name: string) returns (len: nat)
    ensures LastSlash(name, len) || (len == 0 && forall j: nat :: j < |name| ==> !IsSlash(name[j]))
  {
    len := |name|;
    while len > 0
      invariant len <= |name|
      invariant forall j: nat :: len <= j < |name| ==> !IsSlash(name[j])
    {
      if IsSlash(name[len - 1]) {
        len := len - 1;
        break;
      }
      len := len - 1;
    }
  }

  /** The file lies below the directory: its path continues the directory name with a slash. */
  ghost predicate InSubset(name: string, dir: string) {
    dir == "" || (|dir| < |name| && Fold(name[..|dir|]) == Fold(dir) && IsSlash(name[|dir|]))
  }

  /** The test as the loop makes it, through the length of the path. */
  method CheckSubset(name: string, dir: string) returns (inside: bool)
    ensures inside == InSubset(name, dir)
  {
    var localPathLen := LocalPathLen(name);
    var skip := |dir| > 0 && (localPathLen < |dir| || Fold(name[..|dir|]) != Fold(dir)
                              || (localPathLen > |dir| && !IsSlash(name[|dir|])));
    return !skip;
  }

  /** A null string counts as an empty one. */
  function OrEmpty(s: Option<string>): string { if s.Some? then s.value else "" }

  /** One slash at the end of the remote directory does not count. */
  function RemoteLength(remoteSubdir: Option<string>): (r: nat)
    ensures var s := OrEmpty(remoteSubdir);
      && r <= |s| <= r + 1
      && (r < |s| <==> s != "" && (s[|s| - 1] == '/' || s[|s| - 1] == '\\'))
  {
    var s := OrEmpty(remoteSubdir);
    if s == "" then 0 else if IsSlash(s[|s| - 1]) then |s| - 1 else |s|
  }

  // ---- the delta ----

  /** The input entry names this file, once both prefixes are dropped. */
  predicate SameName(entry: File, f: File, remoteLen: nat, dirLen: nat)
    requires remoteLen <= |entry.filename| && dirLen <= |f.filename|
  {
    Fold(entry.filename[remoteLen..]) == Fold(f.filename[dirLen..])
  }

  function Bytes(f: File): seq<byte> { if f.data.Some? then f.data.value else [] }

  /** Both lengths and the bytes agree. */
  predicate SameContents(entry: File, f: File) {
    entry.fileLengthBytes == f.fileLengthBytes && entry.dataLengthBytes == f.dataLengthBytes && Bytes(entry) == Bytes(f)
  }

  ghost predicate LongNames(input: seq<File>, remoteLen: nat) {
    forall i: nat :: i < |input| ==> remoteLen <= |input[i].filename|
  }

  /** `k` is the first input entry that names this file. */
  ghost predicate FirstNamed(input: seq<File>, f: File, remoteLen: nat, dirLen: nat, k: nat)
    requires LongNames(input, remoteLen) && dirLen <= |f.filename|
  {
    && k < |input| && SameName(input[k], f, remoteLen, dirLen)
    && forall j: nat :: j < k ==> !SameName(input[j], f, remoteLen, dirLen)
  }

  /** Where the byte comparison is reached it has bytes on both sides. */
  ghost predicate Comparable(input: seq<File>, f: File, remoteLen: nat, dirLen: nat)
    requires LongNames(input, remoteLen) && dirLen <= |f.filename|
  {
    forall k: nat :: FirstNamed(input, f, remoteLen, dirLen, k) &&
      input[k].fileLengthBytes == f.fileLengthBytes && input[k].dataLengthBytes == f.dataLengthBytes > 0
      ==> input[k].data.Some? && f.data.Some?
  }

  /** No first same-named input entry, or one that differs in lengths or bytes. */
  ghost predicate AbsentOrChanged(input: seq<File>, f: File, remoteLen: nat, dirLen: nat)
    requires LongNames(input, remoteLen) && dirLen <= |f.filename|
  {
    forall k: nat :: FirstNamed(input, f, remoteLen, dirLen, k) ==> !SameContents(input[k], f)
  }

  ghost predicate Wanted(input: seq<File>, f: File, remoteLen: nat, dir: string)
    requires LongNames(input, remoteLen)
  {
    InSubset(f.filename, dir) && AbsentOrChanged(input, f, remoteLen, |dir|)
  }

  /** What the delta says about a file: its names and length but no data. */
  function Entry(f: File): File {
    NewNode(f.filename, f.fullPathToFile, None, 0, f.fileLengthBytes, NO_CONTEXT, false)
  }

  /** The wanted entries, in the order of this list. */
  ghost function Delta(files: seq<File>, input: seq<File>, remoteLen: nat, dir: string): seq<File>
    requires LongNames(input, remoteLen)
  {
    if files == [] then [] else
      Delta(files[..|files| - 1], input, remoteLen, dir) +
      (if Wanted(input, files[|files| - 1], remoteLen, dir) then [Entry(files[|files| - 1])] else [])
  }

  /** Adds one after the other. */
  ghost function AddAll(files: seq<File>, ns: seq<File>): seq<File> {
    if ns == [] then files else Add(AddAll(files, ns[..|ns| - 1]), ns[|ns| - 1])
  }

  lemma {:induction false} AddAllStep(files: seq<File>, ns: seq<File>, n: File)
    ensures AddAll(files, ns + [n]) == Add(AddAll(files, ns), n)
  {
    assert (ns + [n])[..|ns|] == ns;
  }

  /** Each file added makes the list at most one longer. */
  lemma {:induction false} AddAllLength(files: seq<File>, ns: seq<File>)
    ensures |AddAll(files, ns)| <= |files| + |ns|
  {
    if ns != [] { AddAllLength(files, ns[..|ns| - 1]); }
  }

  ghost predicate ShortNames(files: seq<File>) {
    forall i: nat :: i < |files| ==> |files[i].filename| <= MAX_FILENAME_LENGTH
  }

  lemma AddAppendsExactly(files: seq<File>, n: File, result: seq<File>)
    requires |files| + 1 == |result|
    ensures Add(files, n) == result <==>
      && result == files + [n] && |n.filename| <= MAX_FILENAME_LENGTH
      && forall j: nat :: j < |files| ==> files[j].filename != n.filename
  {}

  /** Adding to an empty list reproduces what is added exactly when the names are short and distinct. */
  lemma {:induction false} AddAllIsIdentity(ns: seq<File>)
    ensures AddAll([], ns) == ns <==> DistinctNames(ns) && ShortNames(ns)
  {
    if ns != [] {
      var init, n := ns[..|ns| - 1], ns[|ns| - 1];
      assert ns == init + [n];
      AddAllIsIdentity(init);
      AddAllLength([], init);
      var before := AddAll([], init);
      if |before| == |init| {
        AddAppendsExactly(before, n, ns);
        assert before + [n] == ns <==> before == init;
      } else {
        assert |Add(before, n)| <= |before| + 1 < |ns|;
      }
      assert DistinctNames(ns) <==>
        DistinctNames(init) && forall j: nat :: j < |init| ==> init[j].filename != n.filename;
      assert ShortNames(ns) <==> ShortNames(init) && |n.filename| <= MAX_FILENAME_LENGTH;
    }
  }

  // ---- what is wanted, said with characters and bytes ----

  predicate SameLetter(a: char, b: char) {
    || a == b
    || ('A' <= a <= 'Z' && b as int == a as int + 32)
    || ('A' <= b <= 'Z' && a as int == b as int + 32)
  }

  ghost predicate EqualIgnoringCase(a: string, b: string) {
    |a| == |b| && forall i: nat :: i < |a| ==> SameLetter(a[i], b[i])
  }

  lemma FoldIgnoresCase(a: string, b: string)
    ensures Fold(a) == Fold(b) <==> EqualIgnoringCase(a, b)
  {
    forall x: char, y: char ensures ToLower(x) == ToLower(y) <==> SameLetter(x, y) {}
    if Fold(a) == Fold(b) {
      forall i: nat | i < |a| ensures SameLetter(a[i], b[i]) { assert Fold(a)[i] == Fold(b)[i]; }
    }
  }

  /** The first input entry whose name, behind the remote directory, is the file's name behind `dir`. */
  ghost predicate Counterpart(input: seq<File>, name: string, remoteLen: nat, k: nat)
    requires LongNames(input, remoteLen)
  {
    && k < |input| && EqualIgnoringCase(input[k].filename[remoteLen..], name)
    && forall j: nat :: j < k ==> !EqualIgnoringCase(input[j].filename[remoteLen..], name)
  }

  lemma CounterpartIsFirstNamed(input: seq<File>, f: File, remoteLen: nat, dirLen: nat, k: nat)
    requires LongNames(input, remoteLen) && dirLen <= |f.filename|
    ensures Counterpart(input, f.filename[dirLen..], remoteLen, k) <==> FirstNamed(input, f, remoteLen, dirLen, k)
  {
    var name := f.filename[dirLen..];
    forall j: nat | j < |input|
      ensures SameName(input[j], f, remoteLen, dirLen) <==> EqualIgnoringCase(input[j].filename[remoteLen..], name)
    {
      FoldIgnoresCase(input[j].filename[remoteLen..], name);
    }
    hide SameName, EqualIgnoringCase;
  }

  /**
   A file is wanted exactly if it lies below the directory, ignoring case, and its counterpart in
   the input, should there be one, differs from it in a length or in a byte.
   */
  lemma WantedExactly(input: seq<File>, f: File, remoteLen: nat, dir: string)
    requires StoredOk(input) && StoredOk([f]) && LongNames(input, remoteLen)
    requires InSubset(f.filename, dir) ==> Comparable(input, f, remoteLen, |dir|)
    ensures Wanted(input, f, remoteLen, dir) <==>
      (&& (dir == "" || (|dir| < |f.filename| && EqualIgnoringCase(f.filename[..|dir|], dir)
                         && (f.filename[|dir|] == '/' || f.filename[|dir|] == '\\')))
       && forall k: nat :: Counterpart(input, f.filename[|dir|..], remoteLen, k) ==>
            || input[k].fileLengthBytes != f.fileLengthBytes
            || input[k].dataLengthBytes != f.dataLengthBytes
            || (f.dataLengthBytes > 0 && input[k].data != f.data))
  {
    assert [f][0] == f;
    if |dir| < |f.filename| { FoldIgnoresCase(f.filename[..|dir|], dir); }
    if InSubset(f.filename, dir) {
      forall k: nat ensures Counterpart(input, f.filename[|dir|..], remoteLen, k) <==> FirstNamed(input, f, remoteLen, |dir|, k) {
        CounterpartIsFirstNamed(input, f, remoteLen, |dir|, k);
      }
      hide Counterpart, FirstNamed, EqualIgnoringCase;
    }
  }

  ghost predicate Ascending(s: seq<nat>) {
    forall i: nat, j: nat :: i < j < |s| ==> s[i] < s[j]
  }

  /** `at` lists, in order, the positions of the wanted files, and `out` their entries. */
  ghost predicate Selects(files: seq<File>, input: seq<File>, remoteLen: nat, dir: string, at: seq<nat>, out: seq<File>)
    requires LongNames(input, remoteLen)
  {
    && Ascending(at)
    && (forall i: nat :: i < |at| ==> at[i] < |files| && Wanted(input, files[at[i]], remoteLen, dir))
    && (forall k: nat :: k < |files| && Wanted(input, files[k], remoteLen, dir) ==> k in at)
    && |out| == |at| && forall i: nat :: i < |at| ==> Names(out[i], files[at[i]])
  }

  /** The entry tells the file's names and length, and brings no data. */
  ghost predicate Names(entry: File, f: File) {
    entry == File(f.filename, f.fullPathToFile, None, 0, f.fileLengthBytes, false, Context(0, 0, 0, 0, None, 0))
  }

  /** One more file is selected behind the others, or not at all. */
  lemma SelectsNext(files: seq<File>, input: seq<File>, remoteLen: nat, dir: string, at: seq<nat>, out: seq<File>)
    requires LongNames(input, remoteLen) && files != []
    requires Selects(files[..|files| - 1], input, remoteLen, dir, at, out)
    ensures var f := files[|files| - 1];
      if Wanted(input, f, remoteLen, dir)
      then Selects(files, input, remoteLen, dir, at + [|files| - 1], out + [Entry(f)])
      else Selects(files, input, remoteLen, dir, at, out)
  {
    assert Names(Entry(files[|files| - 1]), files[|files| - 1]);
    hide Wanted, Entry, Names;
    var n := |files| - 1;
    assert forall k: nat :: k < n ==> files[..n][k] == files[k];
    if Wanted(input, files[n], remoteLen, dir) {
      var more := at + [n];
      assert more[|at|] == n;
      assert forall k :: k in at ==> k in more;
    }
  }

  lemma {:induction false} DeltaSelects(files: seq<File>, input: seq<File>, remoteLen: nat, dir: string)
    returns (at: seq<nat>)
    requires LongNames(input, remoteLen)
    ensures Selects(files, input, remoteLen, dir, at, Delta(files, input, remoteLen, dir))
    decreases |files|
  {
    at := [];
    if files != [] {
      var n := |files| - 1;
      at := DeltaSelects(files[..n], input, remoteLen, dir);
      SelectsNext(files, input, remoteLen, dir, at, Delta(files[..n], input, remoteLen, dir));
      hide Wanted, Entry, Selects;
      if Wanted(input, files[n], remoteLen, dir) {
        at := at + [n];
      } else {
        assert Delta(files[..n], input, remoteLen, dir) + [] == Delta(files[..n], input, remoteLen, dir);
      }
    }
  }

  lemma EntriesInherit(files: seq<File>, at: seq<nat>, out: seq<File>)
    requires DistinctNames(files) && ShortNames(files) && Ascending(at)
    requires forall i: nat :: i < |at| ==> at[i] < |files|
    requires |out| == |at| && forall i: nat :: i < |at| ==> Names(out[i], files[at[i]])
    ensures DistinctNames(out) && ShortNames(out)
  {}

  /**
   With distinct names the delta added to an empty list is, in order, exactly the files of the
   subset whose first same-named input entry is absent or differs.
   */
  lemma DeltaIsExact(files: seq<File>, input: seq<File>, remoteLen: nat, dir: string) returns (at: seq<nat>)
    requires LongNames(input, remoteLen) && DistinctNames(files) && ShortNames(files)
    ensures Selects(files, input, remoteLen, dir, at, AddAll([], Delta(files, input, remoteLen, dir)))
  {
    at := DeltaSelects(files, input, remoteLen, dir);
    var out := Delta(files, input, remoteLen, dir);
    hide Wanted, Delta;
    EntriesInherit(files, at, out);
    AddAllIsIdentity(out);
  }

  /** A list whose names differ even when case is ignored has no delta to itself. */
  lemma {:induction false} NoDeltaToItself(files: seq<File>)
    requires DistinctFolded(files)
    ensures Delta(files, files, 0, "") == []
  {
    NoDeltaOfPrefix(files, |files|);
    assert files[..|files|] == files;
  }

  /** No two names agree when case is ignored. */
  ghost predicate DistinctFolded(files: seq<File>) {
    forall i: nat, j: nat :: i < j < |files| ==> Fold(files[i].filename) != Fold(files[j].filename)
  }

  lemma {:induction false} NoDeltaOfPrefix(files: seq<File>, n: nat)
    requires DistinctFolded(files) && n <= |files|
    ensures Delta(files[..n], files, 0, "") == []
  {
    if n > 0 {
      NoDeltaOfPrefix(files, n - 1);
      assert files[..n][..n - 1] == files[..n - 1];
      var f := files[n - 1];
      assert forall k: nat :: k < |files| ==> files[k].filename[0..] == files[k].filename;
      assert FirstNamed(files, f, 0, 0, n - 1);
      assert SameContents(files[n - 1], f);
    }
  }

  class FileList {
    var fileList: seq<File>

    ghost predicate Valid() reads this { DistinctNames(fileList) && StoredOk(fileList) }

    constructor ()
      ensures Valid() && fileList == []
    {
      fileList := [];
    }

    /** The in-memory overload. Comparing bytes needs bytes on both sides. */
    method AddFile(filename: string, fullPath: string, data: Option<seq<byte>>, dataLength: nat, fileLength: nat,
                   context: Context, isAReference: bool)
      requires Valid()
      requires isAReference ==> data.None?
      requires data.Some? ==> dataLength <= |data.value|
      requires data.None? && dataLength > 0 ==>
        forall i: nat :: i < |fileList| && fileList[i].filename == filename && fileList[i].dataLengthBytes == dataLength
          ==> fileList[i].data.None?
      modifies this
      ensures Valid()
      ensures fileList == Add(old(fileList), NewNode(filename, fullPath, data, dataLength, fileLength, context, isAReference))
    {
      if |filename| > MAX_FILENAME_LENGTH { return; }
      ghost var was := fileList;
      ghost var node := NewNode(filename, fullPath, data, dataLength, fileLength, context, isAReference);
      AddKeepsDistinct(was, node);
      var i := 0;
      while i < |fileList|
        invariant i <= |fileList| && fileList == was
        invariant forall j: nat :: j < i ==> fileList[j].filename != filename
      {
        if fileList[i].filename == filename {
          assert IndexOfName(was, filename) == i;
          if fileList[i].fileLengthBytes == fileLength && fileList[i].dataLengthBytes == dataLength
            && (dataLength == 0 || fileList[i].data.None? || data.value[..dataLength] == fileList[i].data.value)
          {
            return;
          }
          fileList := RemoveAt(fileList, i);
          break;
        }
        i := i + 1;
      }
      var n := File(filename, fullPath, None, dataLength, fileLength, isAReference, context);
      if dataLength > 0 && data.Some? { n := n.(data := Some(data.value[..dataLength])); }
      if n.context.dataPtr.None? { n := n.(context := n.context.(dataPtr := n.data)); }
      if n.context.dataLength == 0 { n := n.(context := n.context.(dataLength := dataLength)); }
      fileList := fileList + [n];
    }

    /** Whether one file of this list goes to the output: the inner loop. */
    method FindDifference(f: File, input: FileList, remoteLen: nat, dirLen: nat) returns (report: bool)
      requires StoredOk(input.fileList) && StoredOk([f])
      requires LongNames(input.fileList, remoteLen) && dirLen <= |f.filename|
      requires Comparable(input.fileList, f, remoteLen, dirLen)
      ensures report == AbsentOrChanged(input.fileList, f, remoteLen, dirLen)
    {
      var inputIndex := 0;
      while inputIndex < |input.fileList|
        invariant inputIndex <= |input.fileList|
        invariant forall j: nat :: j < inputIndex ==> !SameName(input.fileList[j], f, remoteLen, dirLen)
      {
        var entry := input.fileList[inputIndex];
        if SameName(entry, f, remoteLen, dirLen) {
          assert FirstNamed(input.fileList, f, remoteLen, dirLen, inputIndex);
          assert [f][0] == f;
          return !(entry.fileLengthBytes == f.fileLengthBytes && entry.dataLengthBytes == f.dataLengthBytes
                   && (f.dataLengthBytes == 0 || entry.data.value == f.data.value));
        }
        inputIndex := inputIndex + 1;
      }
      return true;
    }

    /** Adds to the output an entry for every file of this list that the input lacks or has differently. */
    method GetDeltaToCurrent(input: FileList, output: FileList, dirSubset: Option<string>, remoteSubdir: Option<string>)
      requires output != this && output != input && output.Valid()
      requires StoredOk(fileList) && StoredOk(input.fileList)
      requires LongNames(input.fileList, RemoteLength(remoteSubdir))
      requires forall i: nat :: i < |fileList| && InSubset(fileList[i].filename, OrEmpty(dirSubset)) ==>
        Comparable(input.fileList, fileList[i], RemoteLength(remoteSubdir), |OrEmpty(dirSubset)|)
      modifies output
      ensures output.Valid()
      ensures output.fileList == AddAll(old(output.fileList),
        Delta(fileList, input.fileList, RemoteLength(remoteSubdir), OrEmpty(dirSubset)))
    {
      var dir := OrEmpty(dirSubset);
      var remoteLen := RemoteLength(remoteSubdir);
      ghost var was := output.fileList;
      var thisIndex := 0;
      while thisIndex < |fileList|
        invariant thisIndex <= |fileList| && output.Valid()
        invariant output.fileList == AddAll(was, Delta(fileList[..thisIndex], input.fileList, remoteLen, dir))
      {
        var f := fileList[thisIndex];
        ghost var told := Delta(fileList[..thisIndex], input.fileList, remoteLen, dir);
        ghost var now := Delta(fileList[..thisIndex + 1], input.fileList, remoteLen, dir);
        assert fileList[..thisIndex + 1][..thisIndex] == fileList[..thisIndex];
        assert now == if Wanted(input.fileList, f, remoteLen, dir) then told + [Entry(f)] else told;
        var report := CheckSubset(f.filename, dir);
        if report { report := FindDifference(f, input, remoteLen, |dir|); }
        assert report == Wanted(input.fileList, f, remoteLen, dir);
        if report {
          AddAllStep(was, told, Entry(f));
          output.AddFile(f.filename, f.fullPathToFile, None, 0, f.fileLengthBytes, NO_CONTEXT, false);
          assert output.fileList == AddAll(was, now);
        }
        thisIndex := thisIndex + 1;
      }
      assert fileList[..thisIndex] == fileList;
    }
  }
}
