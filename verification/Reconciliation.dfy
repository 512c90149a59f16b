/** The client's directory reconciliation: the second half of dripbox_client_list_server in client.c. */
module Reconciliation {
  import opened Wrappers
  import opened Arenas
  import opened Arithmetic
  import opened Checksums
  import opened Listings
  import opened SetDifferences
  import opened StringViews
  import opened Synchronising

  /** d_name: at most 255 characters, no separator, no NUL. */
  type FileName = s: string | 0 < |s| < 256 && NUL !in s && Without(s, |s|, PATH_SEPARATOR) witness "a"

  /** Files by name, with their contents. */
  type Files = map<FileName, seq<byte>>

  type Entry = FileEntry<FileName>

  const BLANK: Entry := FileEntry("a", 0)

  /** file_name_checksum_name_equals. */
  predicate NameEquals(a: Entry, b: Entry)
    ensures NameEquals(a, b) <==> a.name == b.name
  {
    EqualsIsEquality(Cstr(a.name), Cstr(b.name));
    SvEquals(Cstr(a.name), Cstr(b.name))
  }

  /** file_name_checksum_equals. */
  predicate EntryEquals(a: Entry, b: Entry)
    ensures EntryEquals(a, b) <==> a == b
  {
    NameEquals(a, b) && a.checksum == b.checksum
  }

  lemma EqualsByName()
    ensures ByName(NameEquals) && ByEntry(EntryEquals)
  {
  }

  // ----- the memory of the differences

  /** struct array in the temporary ring: `data` is the part of its elements that lies inside the ring. */
  class EntryArray {
    var length: nat
    const data: array<Entry>

    /** array_new_, at an address with `room` bytes up to the end of the ring. */
    constructor (capacity: nat, room: nat)
      requires room >= HEADER_SIZE
      ensures fresh(data) && length == capacity
      ensures data.Length == if ArraySize(capacity) <= room then capacity else (room - HEADER_SIZE) / ENTRY_SIZE
    {
      length := capacity;
      data := new Entry[if ArraySize(capacity) <= room then capacity else (room - HEADER_SIZE) / ENTRY_SIZE](_ => BLANK);
    }

    method Fill(a: seq<Entry>, b: seq<Entry>, eq: (Entry, Entry) -> bool) returns (fits: bool)
      modifies this, data
      ensures fits == (|Output(a, b, eq, |a|)| <= data.Length)
      ensures fits ==> length <= data.Length && data[..length] == Output(a, b, eq, |a|)
    {
      var n: nat;
      n, fits := SetDifference(a, b, data, eq);
      if fits { length := n; }
    }
  }

  /** array_set_difference, twice from the temporary ring. Where the second array wraps around, it is the
      memory of the first. `fits` is false when a difference is written behind the end of the ring; what
      happens then is not modelled. */
  method Differences(local: seq<Entry>, listing: seq<Entry>, ring: Arena)
    returns (fits: bool, toDelete: seq<Entry>, toDownload: seq<Entry>)
    requires ring.Valid() && ring.current == ring.min && ring.max == ring.min + TMP_ARENA_SIZE
    modifies ring`current
    ensures ring.Valid()
    ensures var gone, due := Output(local, listing, NameEquals, |local|), Output(listing, local, EntryEquals, |listing|);
      && fits == (|gone| <= ENTRIES_IN_RING && |due| <= ENTRIES_IN_RING)
      && (fits ==> toDelete == gone)
      && (fits ==> toDownload == if 2 * ArraySize(Max(|listing|, |local|)) > TMP_ARENA_SIZE then gone else due)
  {
    toDelete, toDownload := [], [];
    var capacity := Max(|listing|, |local|);
    RingRepeats(ring.min, ring.max, ArraySize(capacity));
    var first := ring.RingAlloc(ArraySize(capacity));
    var due := new EntryArray(capacity, ring.max - first);
    fits := due.Fill(listing, local, EntryEquals);
    if !fits { return; }
    var second := ring.RingAlloc(ArraySize(capacity));
    var gone := due;
    if second != first {
      gone := new EntryArray(capacity, ring.max - second);
    }
    fits := gone.Fill(local, listing, NameEquals);
    if !fits { return; }
    toDelete, toDownload := gone.data[..gone.length], due.data[..due.length];
  }

  // ----- the directory

  class SyncDirectory {
    var files: Files
    const path: string

    ghost predicate Valid()
      reads this
    {
      NUL !in path && 0 < |path| && |path| + 256 < PATH_MAX
    }

    constructor (path: string, files: Files)
      requires NUL !in path && 0 < |path| && |path| + 256 < PATH_MAX
      ensures Valid() && this.files == files && this.path == path
    {
      this.files, this.path := files, path;
    }

    /** scandir, with the checksum of every file. */
    method Scan() returns (entries: seq<Entry>)
      ensures Lists(entries, files)
    {
      entries := [];
      var left := files.Keys;
      while left != {}
        invariant left <= files.Keys && |entries| + |left| == |files.Keys|
        invariant forall e :: e in entries ==> e.name in files && e.checksum == Whole(files[e.name])
        invariant forall n :: n in files && n !in left ==> FileEntry(n, Whole(files[n])) in entries
      {
        var n :| n in left;
        entries := entries + [FileEntry(n, Whole(files[n]))];
        left := left - {n};
      }
    }

    method Unlink(name: FileName, stuck: set<FileName>)
      modifies this
      ensures files == if name in stuck then old(files) else old(files) - {name}
    {
      if name !in stuck {
        files := files - {name};
      }
    }

    /** dripbox_client_download with the path of the file: the name is taken from the path again. A server
        without such a file answers with an error. */
    method Download(name: FileName, server: Files, broken: set<FileName>)
      requires Valid()
      modifies this
      ensures Valid()
      ensures files == if name in server && name !in broken then old(files)[name := server[name]] else old(files)
    {
      PathFits(path, name);
      var requested := RequestedName(path, name);
      var wanted: FileName := requested.Contents();
      if wanted in server && name !in broken {
        files := files[name := server[wanted]];
      }
    }

    method DeleteAll(s: seq<Entry>, stuck: set<FileName>)
      modifies this
      ensures files == Deleted(old(files), NamesOf(s), stuck)
    {
      for i := 0 to |s|
        invariant files == Deleted(old(files), NamesOf(s[..i]), stuck)
      {
        assert s[..i + 1][..i] == s[..i];
        OneMoreName(old(files), NamesOf(s[..i]), s[i].name, map[], stuck, {});
        Unlink(s[i].name, stuck);
      }
      assert s[..|s|] == s;
    }

    method DownloadAll(s: seq<Entry>, server: Files, broken: set<FileName>)
      requires Valid()
      modifies this
      ensures Valid() && files == Downloaded(old(files), NamesOf(s), server, broken)
    {
      for i := 0 to |s|
        invariant Valid() && files == Downloaded(old(files), NamesOf(s[..i]), server, broken)
      {
        assert s[..i + 1][..i] == s[..i];
        OneMoreName(old(files), NamesOf(s[..i]), s[i].name, server, {}, broken);
        Download(s[i].name, server, broken);
      }
      assert s[..|s|] == s;
    }

    /** The two lists, as they are found in memory. */
    method Compare(listing: seq<Entry>, ghost server: Files, ring: Arena)
      returns (fits: bool, toDelete: seq<Entry>, toDownload: seq<Entry>)
      requires Lists(listing, server)
      requires ring.Valid() && ring.current == ring.min && ring.max == ring.min + TMP_ARENA_SIZE
      modifies ring`current
      ensures ring.Valid() && fits == WritesFit(files, server)
      ensures fits ==> NamesOf(toDelete) == Surplus(files, server)
      ensures fits ==> NamesOf(toDownload) == if Aliased(files, server) then Surplus(files, server) else Outdated(files, server)
    {
      var local := Scan();
      EqualsByName();
      NameDifference(local, listing, files, server, NameEquals);
      EntryDifference(local, listing, files, server, EntryEquals);
      fits, toDelete, toDownload := Differences(local, listing, ring);
    }

    /** The update after a LIST answer from the server. */
    method Reconcile(listing: seq<Entry>, server: Files, update: bool, stuck: set<FileName>, broken: set<FileName>, ring: Arena)
      returns (fits: bool)
      requires Valid() && Lists(listing, server)
      requires ring.Valid() && ring.current == ring.min && ring.max == ring.min + TMP_ARENA_SIZE
      modifies this, ring`current
      ensures Valid() && ring.Valid() && (fits ==> ring.current == ring.min)
      ensures fits <==> !update || Outcome(old(files), server, stuck, broken).Some?
      ensures fits ==> files == if update then Outcome(old(files), server, stuck, broken).value else old(files)
    {
      fits := true;
      ListsNothing(listing, server);
      if update && |listing| > 0 {
        fits := Update(listing, server, stuck, broken, ring);
      }
    }

    /** The body of the update, for a listing that is not empty. */
    method Update(listing: seq<Entry>, server: Files, stuck: set<FileName>, broken: set<FileName>, ring: Arena)
      returns (fits: bool)
      requires Valid() && Lists(listing, server)
      requires ring.Valid() && ring.current == ring.min && ring.max == ring.min + TMP_ARENA_SIZE
      modifies this, ring`current
      ensures Valid() && ring.Valid() && (fits ==> ring.current == ring.min)
      ensures fits == WritesFit(old(files), server)
      ensures fits ==> files == Reconciled(old(files), server, stuck, broken)
    {
      var checkpoint := ring.current;
      var toDelete, toDownload;
      fits, toDelete, toDownload := Compare(listing, server, ring);
      if !fits { return; }
      BothWays(files, server, stuck, broken);
      DeleteAll(toDelete, stuck);
      DownloadAll(toDownload, server, broken);
      ring.current := checkpoint;
    }
  }

  lemma PathFits(path: string, name: FileName)
    requires NUL !in path && 0 < |path| && |path| + 256 < PATH_MAX
    ensures NUL !in Combine([path, name]) && 0 < |Combine([path, name])| < PATH_MAX
  {
    assert [path, name][..1] == [path] && [path][..0] == [];
    assert Combine([path]) == path;
  }

  // ----- the listing that gets lost

  function NumberedName(k: nat): FileName
    requires k < 400
  {
    [(65 + k / 20) as char, (65 + k % 20) as char]
  }

  lemma NumberedNamesDiffer(j: nat, k: nat)
    requires j < k < 400
    ensures NumberedName(j) != NumberedName(k)
  {
    assert NumberedName(j)[0] == NumberedName(k)[0] ==> NumberedName(j)[1] != NumberedName(k)[1];
  }

  /** A server with this many files, all of them empty. */
  function Numbered(count: nat): Files
    requires count <= 400
  {
    if count == 0 then map[] else Numbered(count - 1)[NumberedName(count - 1) := []]
  }

  lemma {:induction false} NumberedSize(count: nat)
    requires count <= 400
    ensures |Numbered(count)| == count
    ensures forall k: nat :: count <= k < 400 ==> NumberedName(k) !in Numbered(count)
  {
    if count > 0 {
      NumberedSize(count - 1);
      forall k: nat | count <= k < 400
        ensures NumberedName(k) !in Numbered(count)
      {
        NumberedNamesDiffer(count - 1, k);
      }
    }
  }

  /** With 341 files listed an empty client gets them all, with 342 none. */
  lemma LostAt342()
    ensures |Numbered(341)| == 341 && Outcome(map[], Numbered(341), {}, {}) == Some(Numbered(341))
    ensures |Numbered(342)| == 342 && Outcome(map[], Numbered(342), {}, {}) == Some(map[])
  {
    NumberedSize(341);
    NumberedSize(342);
    FetchedWhole(Numbered(341));
    NothingArrives(Numbered(342));
  }
}
