/** Directory listings as the reconciliation of client.c compares them: names with checksums. */
module Listings {
  import opened Wrappers
  import opened Checksums
  import opened SetDifferences
  import opened Synchronising

  /** struct file_name_checksum. */
  datatype FileEntry<+N> = FileEntry(name: N, checksum: byte)

  /** The entries are the files' names with their checksums, each once, in any order. */
  ghost predicate Lists<N(!new)>(entries: seq<FileEntry<N>>, files: map<N, seq<byte>>) {
    && |entries| == |files|
    && (forall e :: e in entries ==> e.name in files && e.checksum == Whole(files[e.name]))
    && (forall n :: n in files ==> FileEntry(n, Whole(files[n])) in entries)
  }

  lemma ListsNothing<N(!new)>(entries: seq<FileEntry<N>>, files: map<N, seq<byte>>)
    requires Lists(entries, files)
    ensures entries == [] <==> files == map[]
  {
  }

  ghost predicate ByName<N(!new)>(eq: (FileEntry<N>, FileEntry<N>) -> bool) {
    forall a, b :: eq(a, b) <==> a.name == b.name
  }

  ghost predicate ByEntry<N(!new)>(eq: (FileEntry<N>, FileEntry<N>) -> bool) {
    forall a, b :: eq(a, b) <==> a == b
  }

  function NamesOf<N>(s: seq<FileEntry<N>>): set<N> {
    if s == [] then {} else NamesOf(s[..|s| - 1]) + {s[|s| - 1].name}
  }

  lemma {:induction false} NamedBySome<N>(s: seq<FileEntry<N>>, n: N)
    ensures n in NamesOf(s) <==> exists i :: 0 <= i < |s| && s[i].name == n
  {
    if s != [] {
      NamedBySome(s[..|s| - 1], n);
      assert forall i :: 0 <= i < |s| - 1 ==> s[..|s| - 1][i] == s[i];
    }
  }

  lemma {:induction false} DistinctNames<N>(s: seq<FileEntry<N>>)
    requires forall j, k :: 0 <= j < k < |s| ==> s[j].name != s[k].name
    ensures |NamesOf(s)| == |s|
  {
    if s != [] {
      DistinctNames(s[..|s| - 1]);
      NamedBySome(s[..|s| - 1], s[|s| - 1].name);
    }
  }

  /** The files to delete are exactly those whose name the server does not list, each once. */
  lemma NameDifference<N(!new)>(local: seq<FileEntry<N>>, listing: seq<FileEntry<N>>, client: map<N, seq<byte>>,
                                server: map<N, seq<byte>>, eq: (FileEntry<N>, FileEntry<N>) -> bool)
    requires Lists(local, client) && Lists(listing, server) && ByName(eq)
    ensures var d := Output(local, listing, eq, |local|);
      NamesOf(d) == Surplus(client, server) && |d| == |Surplus(client, server)|
  {
    var d := Output(local, listing, eq, |local|);
    OutputIsDifference(local, listing, eq, |local|);
    forall n
      ensures n in NamesOf(d) <==> n in Surplus(client, server)
    {
      DifferenceIsExact(local, listing, eq, FileEntry(n, 0));
      NamedBySome(d, n);
      HasName(d, n, eq);
      ListsName(local, client, n, eq);
      ListsName(listing, server, n, eq);
    }
    DifferenceHasNoMatch(local, listing, eq);
    DistinctNames(d);
  }

  lemma HasName<N(!new)>(s: seq<FileEntry<N>>, n: N, eq: (FileEntry<N>, FileEntry<N>) -> bool)
    requires ByName(eq)
    ensures Has(s, FileEntry(n, 0), eq) <==> exists i :: 0 <= i < |s| && s[i].name == n
  {
  }

  lemma ListsName<N(!new)>(s: seq<FileEntry<N>>, files: map<N, seq<byte>>, n: N, eq: (FileEntry<N>, FileEntry<N>) -> bool)
    requires Lists(s, files) && ByName(eq)
    ensures Has(s, FileEntry(n, 0), eq) <==> n in files
  {
    HasName(s, n, eq);
    if n in files { assert FileEntry(n, Whole(files[n])) in s; }
  }

  /** The files to fetch are exactly those missing here or listed with another checksum, each once. */
  lemma EntryDifference<N(!new)>(local: seq<FileEntry<N>>, listing: seq<FileEntry<N>>, client: map<N, seq<byte>>,
                                 server: map<N, seq<byte>>, eq: (FileEntry<N>, FileEntry<N>) -> bool)
    requires Lists(local, client) && Lists(listing, server) && ByEntry(eq)
    ensures var d := Output(listing, local, eq, |listing|);
      NamesOf(d) == Outdated(client, server) && |d| == |Outdated(client, server)|
  {
    var d := Output(listing, local, eq, |listing|);
    OutputIsDifference(listing, local, eq, |listing|);
    forall e: FileEntry<N>
      ensures e in d <==> (e.name in Outdated(client, server) && e.checksum == Whole(server[e.name]))
    {
      DifferenceIsExact(listing, local, eq, e);
      HasEntry(d, e, eq);
      HasEntry(listing, e, eq);
      HasEntry(local, e, eq);
    }
    DifferenceHasNoMatch(listing, local, eq);
    EntriesName(d, client, server);
    DistinctNames(d);
  }

  lemma HasEntry<N(!new)>(s: seq<FileEntry<N>>, e: FileEntry<N>, eq: (FileEntry<N>, FileEntry<N>) -> bool)
    requires ByEntry(eq)
    ensures Has(s, e, eq) <==> e in s
  {
  }

  lemma EntriesName<N(!new)>(due: seq<FileEntry<N>>, client: map<N, seq<byte>>, server: map<N, seq<byte>>)
    requires forall e :: e in due <==> (e.name in Outdated(client, server) && e.checksum == Whole(server[e.name]))
    requires forall j, k :: 0 <= j < k < |due| ==> due[j] != due[k]
    ensures NamesOf(due) == Outdated(client, server)
    ensures forall j, k :: 0 <= j < k < |due| ==> due[j].name != due[k].name
  {
    assert forall k :: 0 <= k < |due| ==> due[k] in due;
    forall n
      ensures n in NamesOf(due) <==> n in Outdated(client, server)
    {
      NamedBySome(due, n);
      if n in Outdated(client, server) { assert FileEntry(n, Whole(server[n])) in due; }
    }
  }
}
