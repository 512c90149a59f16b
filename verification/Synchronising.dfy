/** What the client's reconciliation makes of its directory, for files given by name and contents. */
module Synchronising {
  import opened Arithmetic
  import opened Wrappers
  import opened Checksums

  /** The names by checksum, all that the two sides compare. */
  function ByChecksum<N>(files: map<N, seq<byte>>): map<N, byte> {
    map n | n in files :: Whole(files[n])
  }

  /** The names to delete: those the server does not have. */
  function Surplus<N>(client: map<N, seq<byte>>, server: map<N, seq<byte>>): set<N> {
    client.Keys - server.Keys
  }

  /** The names to fetch: missing here, or with another checksum. */
  function Outdated<N>(client: map<N, seq<byte>>, server: map<N, seq<byte>>): set<N> {
    set n | n in server && (n !in client || Whole(client[n]) != Whole(server[n]))
  }

  /** Unlinking the named files; unlink fails for those in `stuck`. */
  function Deleted<N>(files: map<N, seq<byte>>, names: set<N>, stuck: set<N>): map<N, seq<byte>> {
    map n | n in files && (n in stuck || n !in names) :: files[n]
  }

  /** The name is one of those the server sends on request. */
  predicate Arrives<N>(names: set<N>, server: map<N, seq<byte>>, broken: set<N>, n: N) {
    n in server && n in names && n !in broken
  }

  /** Downloading the named files; a name the server lacks or one in `broken` brings nothing. */
  function Downloaded<N>(files: map<N, seq<byte>>, names: set<N>, server: map<N, seq<byte>>, broken: set<N>): map<N, seq<byte>> {
    map n | n in files.Keys + server.Keys && (n in files || Arrives(names, server, broken, n))
      :: if Arrives(names, server, broken, n) then server[n] else files[n]
  }

  lemma OneMoreName<N>(files: map<N, seq<byte>>, names: set<N>, n: N, server: map<N, seq<byte>>, stuck: set<N>, broken: set<N>)
    ensures Deleted(files, names + {n}, stuck)
         == if n in stuck then Deleted(files, names, stuck) else Deleted(files, names, stuck) - {n}
    ensures Downloaded(files, names + {n}, server, broken)
         == if n in server && n !in broken then Downloaded(files, names, server, broken)[n := server[n]]
            else Downloaded(files, names, server, broken)
  {
  }

  /** What the two differences are meant to make of the client's directory. */
  function Synced<N>(client: map<N, seq<byte>>, server: map<N, seq<byte>>, stuck: set<N>, broken: set<N>): map<N, seq<byte>> {
    map n | n in client.Keys + server.Keys
      && (if n in server then n in client || n !in broken else n in stuck)
      :: if n in Outdated(client, server) && n !in broken then server[n] else client[n]
  }

  /** What is left when nothing but the deletions happens. */
  function Pruned<N>(client: map<N, seq<byte>>, server: map<N, seq<byte>>, stuck: set<N>): map<N, seq<byte>> {
    map n | n in client && (n in server || n in stuck) :: client[n]
  }

  lemma DeletedThenDownloaded<N>(client: map<N, seq<byte>>, server: map<N, seq<byte>>, stuck: set<N>, broken: set<N>)
    ensures Downloaded(Deleted(client, Surplus(client, server), stuck), Outdated(client, server), server, broken)
         == Synced(client, server, stuck, broken)
  {
  }

  lemma DownloadedThenDeleted<N>(client: map<N, seq<byte>>, server: map<N, seq<byte>>, stuck: set<N>, broken: set<N>)
    ensures Deleted(Downloaded(client, Outdated(client, server), server, broken), Surplus(client, server), stuck)
         == Synced(client, server, stuck, broken)
  {
  }

  /** No name is in both differences, and deleting first or downloading first makes no difference. */
  lemma EitherOrder<N>(client: map<N, seq<byte>>, server: map<N, seq<byte>>, stuck: set<N>, broken: set<N>)
    ensures Surplus(client, server) !! Outdated(client, server)
    ensures Downloaded(Deleted(client, Surplus(client, server), stuck), Outdated(client, server), server, broken)
         == Deleted(Downloaded(client, Outdated(client, server), server, broken), Surplus(client, server), stuck)
  {
    DeletedThenDownloaded(client, server, stuck, broken);
    DownloadedThenDeleted(client, server, stuck, broken);
  }

  /** Downloading the names just deleted brings nothing. */
  lemma DownloadedTheDeleted<N>(client: map<N, seq<byte>>, server: map<N, seq<byte>>, stuck: set<N>, broken: set<N>)
    ensures var gone := Surplus(client, server);
      Downloaded(Deleted(client, gone, stuck), gone, server, broken) == Pruned(client, server, stuck)
  {
  }

  // ----- the memory of the differences

  const TMP_ARENA_SIZE: nat := 16384

  /** sizeof(struct array) and sizeof(struct file_name_checksum). */
  const HEADER_SIZE: nat := 8
  const ENTRY_SIZE: nat := 24

  function ArraySize(capacity: nat): nat {
    HEADER_SIZE + ENTRY_SIZE * capacity
  }

  /** The elements of an array at the front of the ring that lie inside the ring. */
  const ENTRIES_IN_RING: nat := (TMP_ARENA_SIZE - HEADER_SIZE) / ENTRY_SIZE

  /** Both differences stay inside the ring. */
  predicate WritesFit<N>(client: map<N, seq<byte>>, server: map<N, seq<byte>>) {
    |Surplus(client, server)| <= ENTRIES_IN_RING && |Outdated(client, server)| <= ENTRIES_IN_RING
  }

  /** The two differences are the same memory: together they do not fit the ring. */
  predicate Aliased<N>(client: map<N, seq<byte>>, server: map<N, seq<byte>>) {
    2 * ArraySize(Max(|server|, |client|)) > TMP_ARENA_SIZE
  }

  /** The arrays share their memory from 342 files on either side on, and stay inside it at least up to 682. */
  lemma MemoryBounds<N>(client: map<N, seq<byte>>, server: map<N, seq<byte>>)
    ensures Aliased(client, server) <==> |client| >= 342 || |server| >= 342
    ensures |client| <= 682 && |server| <= 682 ==> WritesFit(client, server)
    ensures !WritesFit(client, server) <==> |Surplus(client, server)| >= 683 || |Outdated(client, server)| >= 683
  {
    SubsetIsSmaller(Surplus(client, server), client.Keys);
    SubsetIsSmaller(Outdated(client, server), server.Keys);
  }

  lemma {:induction false} SubsetIsSmaller<T>(a: set<T>, b: set<T>)
    requires a <= b
    ensures |a| <= |b|
  {
    if x :| x in a {
      SubsetIsSmaller(a - {x}, b - {x});
    }
  }

  /** The client's directory after a reconciliation. In shared memory the list to download is the list that
      was deleted, of which the server has nothing. */
  function Reconciled<N>(client: map<N, seq<byte>>, server: map<N, seq<byte>>, stuck: set<N>, broken: set<N>): map<N, seq<byte>> {
    if Aliased(client, server) then Pruned(client, server, stuck) else Synced(client, server, stuck, broken)
  }

  /** The two loops, with the list to download as it is found in memory. */
  lemma BothWays<N>(client: map<N, seq<byte>>, server: map<N, seq<byte>>, stuck: set<N>, broken: set<N>)
    ensures var gone, due := Surplus(client, server), Outdated(client, server);
      Reconciled(client, server, stuck, broken)
      == Downloaded(Deleted(client, gone, stuck), if Aliased(client, server) then gone else due, server, broken)
  {
    DeletedThenDownloaded(client, server, stuck, broken);
    DownloadedTheDeleted(client, server, stuck, broken);
  }

  // ----- convergence

  /** The name is settled: both sides have it with one checksum, or the client has dropped it. */
  predicate Agrees<N>(result: map<N, seq<byte>>, server: map<N, seq<byte>>, n: N) {
    if n in server then n in result && Whole(result[n]) == Whole(server[n]) else n !in result
  }

  lemma AgreesExactly<N>(client: map<N, seq<byte>>, server: map<N, seq<byte>>, stuck: set<N>, broken: set<N>, n: N)
    ensures Agrees(Synced(client, server, stuck, broken), server, n)
      <==> !(n in Surplus(client, server) && n in stuck) && !(n in Outdated(client, server) && n in broken)
    ensures Agrees(Pruned(client, server, stuck), server, n)
      <==> !(n in Surplus(client, server) && n in stuck) && n !in Outdated(client, server)
  {
  }

  lemma AgreesMeansEqual<N(!new)>(result: map<N, seq<byte>>, server: map<N, seq<byte>>)
    ensures ByChecksum(result) == ByChecksum(server) <==> forall n :: Agrees(result, server, n)
  {
    var r, s := ByChecksum(result), ByChecksum(server);
    if r == s {
      forall n
        ensures Agrees(result, server, n)
      {
        assert n in result <==> n in r;
        assert n in server <==> n in s;
        if n in r { assert r[n] == s[n]; }
      }
    }
    if forall n :: Agrees(result, server, n) {
      forall n
        ensures (n in r <==> n in s) && (n in r ==> r[n] == s[n])
      {
        assert Agrees(result, server, n);
      }
    }
  }

  /** Nothing that had to be deleted was stuck, and nothing that had to be fetched was missed: in memory of its
      own the list is fetched but for the failures, in shared memory not at all. */
  predicate AllDone<N>(client: map<N, seq<byte>>, server: map<N, seq<byte>>, stuck: set<N>, broken: set<N>) {
    && Surplus(client, server) !! stuck
    && if Aliased(client, server) then Outdated(client, server) == {} else Outdated(client, server) !! broken
  }

  /** The directory after the whole call. With an empty listing nothing happens at all; None where a list is
      written behind the end of the ring, after which anything may happen. */
  function Outcome<N>(client: map<N, seq<byte>>, server: map<N, seq<byte>>, stuck: set<N>, broken: set<N>)
    : Option<map<N, seq<byte>>>
  {
    if server == map[] then Some(client)
    else if !WritesFit(client, server) then None
    else Some(Reconciled(client, server, stuck, broken))
  }

  /** A second call with the same server and the same failures. */
  function SecondOutcome<N>(client: map<N, seq<byte>>, server: map<N, seq<byte>>, stuck: set<N>, broken: set<N>)
    : Option<map<N, seq<byte>>>
  {
    var once := Outcome(client, server, stuck, broken);
    if once == None then None else Outcome(once.value, server, stuck, broken)
  }

  /** The call stays inside its memory and leaves the server's names and checksums. */
  ghost predicate EndsEqual<N>(result: Option<map<N, seq<byte>>>, server: map<N, seq<byte>>) {
    result.Some? && ByChecksum(result.value) == ByChecksum(server)
  }

  /** A call runs over the ring exactly when a list of 683 entries or more is to be written. */
  lemma OverrunIff<N>(client: map<N, seq<byte>>, server: map<N, seq<byte>>, stuck: set<N>, broken: set<N>)
    ensures Outcome(client, server, stuck, broken) == None
      <==> server != map[] && (|Surplus(client, server)| >= 683 || |Outdated(client, server)| >= 683)
  {
    MemoryBounds(client, server);
  }

  lemma SameChecksums<N(!new)>(client: map<N, seq<byte>>, server: map<N, seq<byte>>, stuck: set<N>, broken: set<N>)
    ensures ByChecksum(Reconciled(client, server, stuck, broken)) == ByChecksum(server)
      <==> AllDone(client, server, stuck, broken)
  {
    AgreesMeansEqual(Reconciled(client, server, stuck, broken), server);
    forall n {
      AgreesExactly(client, server, stuck, broken, n);
    }
  }

  lemma NothingListed<N>(client: map<N, seq<byte>>, server: map<N, seq<byte>>)
    requires server == map[]
    ensures ByChecksum(client) == ByChecksum(server) <==> client == map[]
  {
    if client != map[] {
      var n :| n in client;
      assert n in ByChecksum(client);
    }
  }

  /** Exactly when the client ends with the server's names and checksums. */
  lemma Converges<N(!new)>(client: map<N, seq<byte>>, server: map<N, seq<byte>>, stuck: set<N>, broken: set<N>)
    ensures EndsEqual(Outcome(client, server, stuck, broken), server)
      <==> if server == map[] then client == map[]
           else WritesFit(client, server) && AllDone(client, server, stuck, broken)
  {
    SameChecksums(client, server, stuck, broken);
    if server == map[] { NothingListed(client, server); }
  }

  /** With every operation succeeding, the call converges if and only if there is something listed (or nothing
      to delete) and there are at most 341 files on either side (or nothing to fetch, and at most 682 to delete). */
  lemma ConvergesUpTo341<N(!new)>(client: map<N, seq<byte>>, server: map<N, seq<byte>>)
    ensures EndsEqual(Outcome(client, server, {}, {}), server)
      <==> if server == map[] then client == map[]
           else (|client| <= 341 && |server| <= 341) || (Outdated(client, server) == {} && |Surplus(client, server)| <= 682)
  {
    Converges(client, server, {}, {});
    MemoryBounds(client, server);
  }

  /** An empty client gets every file of a server with at most 341. */
  lemma FetchedWhole<N(!new)>(server: map<N, seq<byte>>)
    requires |server| <= 341
    ensures Outcome(map[], server, {}, {}) == Some(server)
  {
    MemoryBounds(map[], server);
    if server != map[] { ContentsConverge(map[], server); }
  }

  /** An empty client stays empty against every server with 342 to 682 files, and runs over the ring against a
      larger one. */
  lemma NothingArrives<N>(server: map<N, seq<byte>>)
    requires |server| >= 342
    ensures Outcome(map[], server, {}, {}) == if |server| <= 682 then Some(map[]) else None
  {
    MemoryBounds(map[], server);
    assert Outdated(map[], server) == server.Keys;
  }

  /** Files kept for their checksum have the server's contents. */
  predicate NothingHidden<N(!new)>(client: map<N, seq<byte>>, server: map<N, seq<byte>>) {
    forall n :: n in client && n in server && Whole(client[n]) == Whole(server[n]) ==> client[n] == server[n]
  }

  lemma SameContents<N(!new)>(client: map<N, seq<byte>>, server: map<N, seq<byte>>)
    ensures Reconciled(client, server, {}, {}) == server <==> AllDone(client, server, {}, {}) && NothingHidden(client, server)
  {
    SameChecksums(client, server, {}, {});
    if AllDone(client, server, {}, {}) && NothingHidden(client, server) {
      assert Reconciled(client, server, {}, {}).Keys == server.Keys;
    }
  }

  /** The contents agree as well exactly when no kept file hides a different content behind an equal checksum. */
  lemma ContentsConverge<N(!new)>(client: map<N, seq<byte>>, server: map<N, seq<byte>>)
    ensures Outcome(client, server, {}, {}) == Some(server)
      <==> EndsEqual(Outcome(client, server, {}, {}), server) && NothingHidden(client, server)
  {
    Converges(client, server, {}, {});
    SameContents(client, server);
  }

  lemma SyncedTwice<N>(client: map<N, seq<byte>>, server: map<N, seq<byte>>, stuck: set<N>, broken: set<N>)
    ensures var once := Synced(client, server, stuck, broken);
      Synced(once, server, stuck, broken) == once && Pruned(once, server, stuck) == once
  {
  }

  lemma PrunedThenSynced<N>(client: map<N, seq<byte>>, server: map<N, seq<byte>>, stuck: set<N>, broken: set<N>)
    ensures var once := Pruned(client, server, stuck);
      Pruned(once, server, stuck) == once && (Synced(once, server, stuck, broken) == once <==> Outdated(client, server) <= broken)
  {
    var once := Pruned(client, server, stuck);
    assert Outdated(once, server) == Outdated(client, server);
    if !(Outdated(client, server) <= broken) {
      var n :| n in Outdated(client, server) && n !in broken;
      assert n in Synced(once, server, stuck, broken) && Synced(once, server, stuck, broken)[n] == server[n];
    }
  }

  /** What a call leaves to delete or to fetch was to be deleted or fetched before it: where the first call fits
      the ring, so does the second. */
  lemma LessToDo<N>(client: map<N, seq<byte>>, server: map<N, seq<byte>>, stuck: set<N>, broken: set<N>)
    ensures var once := Reconciled(client, server, stuck, broken);
      && Surplus(once, server) <= Surplus(client, server) && Outdated(once, server) <= Outdated(client, server)
      && (WritesFit(client, server) ==> WritesFit(once, server))
  {
    var once := Reconciled(client, server, stuck, broken);
    SubsetIsSmaller(Surplus(once, server), Surplus(client, server));
    SubsetIsSmaller(Outdated(once, server), Outdated(client, server));
  }

  /** A second call changes nothing, unless the first one shared its memory, its deletions let the second one
      have memory of its own, and something is left to fetch. */
  lemma SettlesExactly<N>(client: map<N, seq<byte>>, server: map<N, seq<byte>>, stuck: set<N>, broken: set<N>)
    requires Outcome(client, server, stuck, broken).Some?
    ensures var once := Outcome(client, server, stuck, broken).value;
      && SecondOutcome(client, server, stuck, broken).Some?
      && (SecondOutcome(client, server, stuck, broken) == Some(once)
          <==> server == map[] || !Aliased(client, server) || Aliased(once, server) || Outdated(client, server) <= broken)
  {
    LessToDo(client, server, stuck, broken);
    SyncedTwice(client, server, stuck, broken);
    PrunedThenSynced(client, server, stuck, broken);
  }

  lemma AtMostTheServers<N>(client: map<N, seq<byte>>, server: map<N, seq<byte>>)
    ensures |Reconciled(client, server, {}, {})| <= |server|
  {
    var once := Reconciled(client, server, {}, {});
    assert once.Keys <= server.Keys;
    SubsetIsSmaller(once.Keys, server.Keys);
  }

  /** With every operation succeeding, two calls converge if and only if there is something listed (or nothing to
      delete), at most 682 files are to be deleted, and the server has at most 341 files (or nothing is to be
      fetched). */
  lemma TwoCallsConverge<N(!new)>(client: map<N, seq<byte>>, server: map<N, seq<byte>>)
    ensures EndsEqual(SecondOutcome(client, server, {}, {}), server)
      <==> if server == map[] then client == map[]
           else |Surplus(client, server)| <= 682 && (|server| <= 341 || Outdated(client, server) == {})
  {
    MemoryBounds(client, server);
    if server == map[] {
      NothingListed(client, server);
    } else if WritesFit(client, server) {
      var once := Reconciled(client, server, {}, {});
      ConvergesUpTo341(once, server);
      LessToDo(client, server, {}, {});
      AtMostTheServers(client, server);
      OutdatedStays(client, server);
    } else {
      SubsetIsSmaller(Outdated(client, server), server.Keys);
    }
  }

  /** Once files share their memory, nothing is fetched; otherwise all of it is. */
  lemma OutdatedStays<N>(client: map<N, seq<byte>>, server: map<N, seq<byte>>)
    ensures Outdated(Reconciled(client, server, {}, {}), server)
         == if Aliased(client, server) then Outdated(client, server) else {}
    ensures Surplus(Reconciled(client, server, {}, {}), server) == {}
  {
  }
}
