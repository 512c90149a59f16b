/** String views, splitting and path building of lib/string_view.h, and the iterator walk of lib/iterator.h. */
module StringViews {
  import opened Wrappers

  const NUL: char := '\0'
  const PATH_SEPARATOR: char := '/'
  const PATH_MAX: nat := 4096

  /** `d` does not occur in the first `n` characters. */
  predicate Without(s: string, n: int, d: char)
    requires n <= |s|
  {
    forall k :: 0 <= k < n ==> s[k] != d
  }

  /** Where `d` first occurs in `s` from position `k` on, or -1. */
  function IndexFrom(s: string, d: char, k: nat): (r: int)
    requires k <= |s|
    ensures r == -1 || k <= r < |s|
    ensures if r == -1 then forall j :: k <= j < |s| ==> s[j] != d else s[r] == d && forall j :: k <= j < r ==> s[j] != d
    decreases |s| - k
  {
    if k == |s| then -1 else if s[k] == d then k else IndexFrom(s, d, k + 1)
  }

  function IndexOf(s: string, d: char): (r: int)
    ensures -1 <= r < |s|
    ensures if r == -1 then Without(s, |s|, d) else s[r] == d && Without(s, r, d)
  {
    IndexFrom(s, d, 0)
  }

  /** The C string at the start of `data`: everything before the first NUL. */
  function UpToNul(data: string): (r: string)
    ensures |r| <= |data| && r == data[..|r|] && Without(r, |r|, NUL)
    ensures |r| < |data| ==> data[|r|] == NUL
  {
    var n := IndexOf(data, NUL);
    if n == -1 then data else data[..n]
  }

  /** Where `needle` first occurs in `text` from position `k` on, or -1. */
  function StrStr(text: string, needle: string, k: nat): (r: int)
    requires k <= |text|
    ensures r == -1 || k <= r <= |text|
    ensures if r == -1 then forall j :: k <= j <= |text| ==> !(needle <= text[j..])
            else needle <= text[r..] && forall j :: k <= j < r ==> !(needle <= text[j..])
    decreases |text| - k
  {
    if needle <= text[k..] then k else if k == |text| then -1 else StrStr(text, needle, k + 1)
  }

  /** A pointer into NUL-terminated memory with a length. */
  datatype View = View(data: string, length: nat) {
    predicate Valid() {
      length <= |data| && NUL in data
    }

    function Contents(): string
      requires Valid()
    {
      data[..length]
    }

    /** The view ends where its C string ends, as sv_cstr makes it. */
    predicate EndsAtNul() {
      Valid() && length == |UpToNul(data)|
    }
  }

  /** sv_index. */
  function SvIndex(v: View, needle: View): int
    requires v.Valid() && needle.Valid()
  {
    if v.length < needle.length then -1
    else
      var p := StrStr(UpToNul(v.data), UpToNul(needle.data), 0);
      if p == -1 || p > v.length then -1 else p
  }

  /** sv_cstr. */
  function Cstr(text: string): (v: View)
    requires NUL !in text
    ensures v.EndsAtNul() && v.Contents() == text
  {
    var data := text + [NUL];
    assert data[|text|] == NUL && data[..|text|] == text;
    View(data, |text|)
  }

  // ----- what sv_index finds

  lemma {:induction false} StrStrOfOne(text: string, d: char, k: nat)
    requires k <= |text|
    ensures StrStr(text, [d], k) == IndexFrom(text, d, k)
    decreases |text| - k
  {
    if k < |text| && text[k] != d {
      StrStrOfOne(text, d, k + 1);
    }
  }

  /** The delimiter is missing from the view but stands right behind it, where strstr still looks. */
  predicate ReadsPast(v: View, d: char)
    requires v.Valid()
  {
    var text := UpToNul(v.data);
    0 < v.length < |text| && text[v.length] == d && Without(text, v.length, d)
  }

  /** The delimiter is in the view, but only behind a NUL, where strstr no longer looks. */
  predicate StopsShort(v: View, d: char)
    requires v.Valid()
  {
    var text := UpToNul(v.data);
    |text| < v.length && Without(text, |text|, d) && d in v.Contents()
  }

  /** Exactly when sv_index finds the first occurrence of a one-character needle in the view. */
  lemma IndexIsExact(v: View, d: char)
    requires v.Valid() && d != NUL
    ensures SvIndex(v, Cstr([d])) == IndexOf(v.Contents(), d) <==> !ReadsPast(v, d) && !StopsShort(v, d)
  {
    var text, s := UpToNul(v.data), v.Contents();
    StrStrOfOne(text, d, 0);
    if IndexOf(s, d) != -1 {
      assert s[IndexOf(s, d)] in s;
    }
    if |text| < v.length {
      SamePrefix(text, s, d, |text|);
    } else {
      SamePrefix(s, text, d, v.length);
    }
  }

  /** What is known of the first occurrence in `b` from a prefix of it. */
  lemma SamePrefix(a: string, b: string, d: char, n: nat)
    requires n == |a| && a <= b
    ensures if IndexOf(a, d) == -1 then IndexOf(b, d) == -1 || IndexOf(b, d) >= n else IndexOf(b, d) == IndexOf(a, d)
    ensures IndexOf(b, d) == n <==> n < |b| && Without(b, n, d) && b[n] == d
  {
  }

  /** In a view that ends at its NUL sv_index finds the first occurrence inside the view. */
  lemma IndexInCstr(v: View, d: char)
    requires v.EndsAtNul() && d != NUL
    ensures SvIndex(v, Cstr([d])) == IndexOf(v.Contents(), d)
  {
    IndexIsExact(v, d);
  }

  // ----- splitting

  /** The parts of `s` between occurrences of `d`. */
  function Split(s: string, d: char): (parts: seq<string>)
    ensures parts != []
    decreases |s|
  {
    var i := IndexOf(s, d);
    if i == -1 then [s] else [s[..i]] + Split(s[i + 1..], d)
  }

  function Join(parts: seq<string>, d: char): string {
    if parts == [] then ""
    else if |parts| == 1 then parts[0]
    else parts[0] + [d] + Join(parts[1..], d)
  }

  predicate AllWithout(parts: seq<string>, d: char) {
    forall i :: 0 <= i < |parts| ==> Without(parts[i], |parts[i]|, d)
  }

  lemma JoinFirst(part: string, parts: seq<string>, d: char)
    requires parts != []
    ensures Join([part] + parts, d) == part + [d] + Join(parts, d)
  {
  }

  lemma SplitFirst(part: string, s: string, d: char)
    requires Without(part, |part|, d)
    ensures Split(part + [d] + s, d) == [part] + Split(s, d)
  {
    var t := part + [d] + s;
    assert t[|part|] == d && forall k :: 0 <= k < |part| ==> t[k] == part[k];
    assert t[..|part|] == part && t[|part| + 1..] == s;
  }

  lemma CutAt(s: string, i: nat)
    requires i < |s|
    ensures s == s[..i] + [s[i]] + s[i + 1..]
  {
  }

  lemma {:induction false} JoinSplit(s: string, d: char)
    ensures Join(Split(s, d), d) == s
    decreases |s|
  {
    var i := IndexOf(s, d);
    if i != -1 {
      var part, rest := s[..i], s[i + 1..];
      CutAt(s, i);
      SplitFirst(part, rest, d);
      JoinSplit(rest, d);
      JoinFirst(part, Split(rest, d), d);
    }
  }

  lemma {:induction false} SplitIsDelimiterFree(s: string, d: char)
    ensures AllWithout(Split(s, d), d)
    decreases |s|
  {
    var i := IndexOf(s, d);
    if i != -1 {
      var part, rest := s[..i], s[i + 1..];
      SplitIsDelimiterFree(rest, d);
      CutAt(s, i);
      SplitFirst(part, rest, d);
      assert Without(part, i, d);
    }
  }

  lemma {:induction false} SplitOfJoin(parts: seq<string>, d: char, s: string)
    requires parts != [] && AllWithout(parts, d) && Join(parts, d) == s
    ensures parts == Split(s, d)
    decreases |parts|
  {
    if |parts| > 1 {
      var rest := Join(parts[1..], d);
      SplitOfJoin(parts[1..], d, rest);
      SplitFirst(parts[0], rest, d);
    }
  }

  /** Splitting undoes joining exactly for delimiter-free parts, so no two such lists join to the same string. */
  lemma SplitJoin(parts: seq<string>, d: char, s: string)
    requires parts != [] && s == Join(parts, d)
    ensures Split(s, d) == parts <==> AllWithout(parts, d)
  {
    SplitIsDelimiterFree(s, d);
    if AllWithout(parts, d) { SplitOfJoin(parts, d, s); }
  }

  /** sv_split_iterator over a C string; `rest` is None where the source's view has a NULL pointer. */
  class SplitIterator {
    var rest: Option<View>
    var current: View
    const delimiter: char

    ghost predicate Valid()
      reads this
    {
      delimiter != NUL && (rest.Some? ==> rest.value.EndsAtNul())
    }

    /** The parts still to come. */
    ghost function Parts(): seq<string>
      requires Valid()
      reads this
    {
      if rest == None then [] else Split(rest.value.Contents(), delimiter)
    }

    /** sv_split. */
    constructor (v: View, delimiter: char)
      requires v.EndsAtNul() && delimiter != NUL
      ensures Valid() && Parts() == Split(v.Contents(), delimiter)
    {
      rest, current, this.delimiter := Some(v), View("", 0), delimiter;
    }

    /** sv_split_next: moves on to the first of the remaining parts. */
    method Next() returns (more: bool)
      requires Valid()
      modifies this
      ensures Valid() && more == (old(Parts()) != [])
      ensures more ==> current.Valid() && [current.Contents()] + Parts() == old(Parts())
      ensures !more ==> current == old(current) && Parts() == []
    {
      if rest == None { return false; }
      var v := rest.value;
      IndexInCstr(v, delimiter);
      var index := SvIndex(v, Cstr([delimiter]));
      if index == -1 {
        current := v;
        rest := None;
        return true;
      }
      SkipEndsAtNul(v, index + 1);
      current := View(v.data, index);
      rest := Some(View(v.data[index + 1..], v.length - (index + 1)));
      assert current.Contents() == v.Contents()[..index];
      more := true;
    }
  }

  /** A pointer moved forward inside its C string still ends at the same NUL. */
  lemma SkipEndsAtNul(v: View, n: nat)
    requires v.EndsAtNul() && n <= v.length
    ensures View(v.data[n..], v.length - n).EndsAtNul()
    ensures View(v.data[n..], v.length - n).Contents() == v.Contents()[n..]
  {
  }

  function Last(parts: seq<string>): string
    requires parts != []
  {
    parts[|parts| - 1]
  }

  /** iterator_last. The assertion of the source is the precondition. */
  method IteratorLast(it: SplitIterator) returns (last: View)
    requires it.Valid() && it.Parts() != []
    modifies it
    ensures it.Valid() && it.Parts() == []
    ensures last.Valid() && last.Contents() == Last(old(it.Parts()))
  {
    ghost var all := it.Parts();
    var more := it.Next();
    while more
      invariant it.Valid() && it.current.Valid()
      invariant Last([it.current.Contents()] + it.Parts()) == Last(all)
      invariant !more ==> it.Parts() == []
      decreases if more then 1 else 0, |it.Parts()|
    {
      more := it.Next();
    }
    last := it.current;
  }

  // ----- comparing

  /** strncmp over two texts of one length finds no difference from position `k` on. */
  predicate SameFrom(a: string, b: string, k: nat)
    requires k <= |a| == |b|
    decreases |a| - k
  {
    k == |a| || (a[k] == b[k] && (a[k] == NUL || SameFrom(a, b, k + 1)))
  }

  /** sv_equals. */
  predicate SvEquals(a: View, b: View)
    requires a.Valid() && b.Valid()
  {
    a.length == b.length && SameFrom(a.Contents(), b.Contents(), 0)
  }

  lemma {:induction false} SameFromMeaning(a: string, b: string, k: nat)
    requires k <= |a| == |b| && a[..k] == b[..k] && Without(a, k, NUL)
    ensures SameFrom(a, b, k) <==> UpToNul(a) == UpToNul(b)
    decreases |a| - k
  {
    assert forall j :: 0 <= j < k ==> a[..k][j] == a[j] && b[..k][j] == b[j];
    if k < |a| && a[k] == b[k] != NUL {
      assert a[..k + 1] == a[..k] + [a[k]] && b[..k + 1] == b[..k] + [b[k]];
      SameFromMeaning(a, b, k + 1);
    } else if k < |a| && a[k] != b[k] {
      assert |UpToNul(a)| >= k && |UpToNul(b)| >= k;
      assert |UpToNul(a)| > k ==> UpToNul(a)[k] == a[k];
      assert |UpToNul(b)| > k ==> UpToNul(b)[k] == b[k];
    }
  }

  /** sv_equals compares the lengths, but the text only up to a NUL. */
  lemma EqualsUpToNul(a: View, b: View)
    requires a.Valid() && b.Valid()
    ensures SvEquals(a, b) <==> a.length == b.length && UpToNul(a.Contents()) == UpToNul(b.Contents())
  {
    if a.length == b.length {
      SameFromMeaning(a.Contents(), b.Contents(), 0);
    }
  }

  /** On NUL-free views sv_equals is equality of the text. */
  lemma EqualsIsEquality(a: View, b: View)
    requires a.Valid() && b.Valid() && NUL !in a.Contents() && NUL !in b.Contents()
    ensures SvEquals(a, b) <==> a.Contents() == b.Contents()
  {
    EqualsUpToNul(a, b);
  }

  // ----- paths

  /** Two path components with a separator between them where one is needed. */
  function Combine2(a: string, b: string): string {
    a + (if a != "" && a[|a| - 1] != PATH_SEPARATOR then [PATH_SEPARATOR] else "") + b
  }

  function Combine(args: seq<string>): string {
    if args == [] then "" else Combine2(Combine(args[..|args| - 1]), args[|args| - 1])
  }

  lemma {:induction false} CombineGrows(args: seq<string>, i: nat)
    requires i <= |args|
    ensures |Combine(args[..i])| <= |Combine(args)|
    decreases |args|
  {
    if i < |args| {
      CombineGrows(args[..|args| - 1], i);
      assert args[..|args| - 1][..i] == args[..i];
    } else {
      assert args[..i] == args;
    }
  }

  /** sv_path_combine2_impl, with the first component already in the buffer. */
  method AppendComponent(buffer: array<char>, length: nat, b: string) returns (n: nat)
    requires buffer.Length == PATH_MAX && length <= PATH_MAX
    requires |Combine2(buffer[..length], b)| <= PATH_MAX
    modifies buffer
    ensures n <= PATH_MAX && buffer[..n] == Combine2(old(buffer[..length]), b)
    ensures forall k :: n <= k < PATH_MAX ==> buffer[k] == old(buffer[k])
  {
    n := length;
    if length > 0 && buffer[length - 1] != PATH_SEPARATOR {
      buffer[length] := PATH_SEPARATOR;
      n := n + 1;
    }
    forall k | 0 <= k < |b| {
      buffer[n + k] := b[k];
    }
    n := n + |b|;
    if n > PATH_MAX {
      n := PATH_MAX;
    }
  }

  /** path_combine. A NUL at the very end of the last component is not counted. */
  method PathCombine(args: seq<string>) returns (buffer: array<char>, length: nat)
    requires 0 < |Combine(args)| < PATH_MAX
    ensures fresh(buffer) && buffer.Length == PATH_MAX && length < PATH_MAX && buffer[length] == NUL
    ensures var path := Combine(args);
      buffer[..length] == if path[|path| - 1] == NUL then path[..|path| - 1] else path
  {
    buffer := new char[PATH_MAX](_ => NUL);
    length := 0;
    for i := 0 to |args|
      invariant length < PATH_MAX && buffer[..length] == Combine(args[..i])
    {
      CombineGrows(args, i + 1);
      assert args[..i + 1][..i] == args[..i];
      length := AppendComponent(buffer, length, args[i]);
    }
    assert args[..|args|] == args;
    if buffer[length - 1] == NUL {
      length := length - 1;
    } else {
      buffer[length] := NUL;
    }
  }

  lemma {:induction false} JoinLast(parts: seq<string>, part: string, d: char)
    requires parts != []
    ensures Join(parts + [part], d) == Join(parts, d) + [d] + part
  {
    if |parts| == 1 {
      assert parts + [part] == [parts[0], part];
      JoinFirst(parts[0], [part], d);
    } else {
      JoinLast(parts[1..], part, d);
      assert (parts + [part])[1..] == parts[1..] + [part];
    }
  }

  lemma LastOfSplit(s: string, name: string, d: char)
    requires Without(name, |name|, d)
    ensures Last(Split(s + [d] + name, d)) == name
  {
    var parts := Split(s, d);
    JoinSplit(s, d);
    SplitIsDelimiterFree(s, d);
    JoinLast(parts, name, d);
    SplitOfJoin(parts + [name], d, s + [d] + name);
  }

  // ----- what combining paths gives

  lemma CombineSnoc(args: seq<string>, b: string)
    ensures Combine(args + [b]) == Combine2(Combine(args), b)
  {
    assert (args + [b])[..|args|] == args;
  }

  /** A path begins with what was combined before, and ends with the component. */
  lemma CombineExtends(args: seq<string>, b: string)
    ensures Combine(args) <= Combine(args + [b]) && |Combine(args + [b])| <= |Combine(args)| + 1 + |b|
    ensures |b| <= |Combine(args + [b])| && Combine(args + [b])[|Combine(args + [b])| - |b|..] == b
  {
    CombineSnoc(args, b);
  }

  lemma WholePart(name: string, d: char)
    requires Without(name, |name|, d)
    ensures Split(name, d) == [name]
  {
  }

  /** A separator-free name is the last part of every path that ends in it. */
  lemma LastOfPath(args: seq<string>, name: string)
    requires Without(name, |name|, PATH_SEPARATOR)
    ensures Last(Split(Combine(args + [name]), PATH_SEPARATOR)) == name
  {
    var dir := Combine(args);
    CombineSnoc(args, name);
    if dir == "" {
      WholePart(name, PATH_SEPARATOR);
    } else {
      var s := if dir[|dir| - 1] == PATH_SEPARATOR then dir[..|dir| - 1] else dir;
      assert Combine2(dir, name) == s + [PATH_SEPARATOR] + name;
      LastOfSplit(s, name, PATH_SEPARATOR);
    }
  }

  ghost predicate PlainName(s: string) {
    s != "" && PATH_SEPARATOR !in s
  }

  /** Names are joined by single separators. */
  lemma {:induction false} CombineIsJoin(args: seq<string>)
    requires args != [] && forall i :: 0 <= i < |args| ==> PlainName(args[i])
    ensures Combine(args) == Join(args, PATH_SEPARATOR)
    ensures Combine(args) != "" && Combine(args)[|Combine(args)| - 1] != PATH_SEPARATOR
    decreases |args|
  {
    var init, last := args[..|args| - 1], args[|args| - 1];
    assert args == init + [last] && PlainName(last);
    CombineSnoc(init, last);
    if init != [] {
      CombineIsJoin(init);
      JoinLast(init, last, PATH_SEPARATOR);
    }
  }

  /** A separator at the end of a directory makes no difference to what is below it. */
  lemma {:induction false} TrailingSeparator(dir: string, rest: seq<string>)
    requires dir != "" && dir[|dir| - 1] != PATH_SEPARATOR && rest != []
    ensures Combine([dir + [PATH_SEPARATOR]] + rest) == Combine([dir] + rest)
    decreases |rest|
  {
    var init, last := rest[..|rest| - 1], rest[|rest| - 1];
    var a, b := [dir + [PATH_SEPARATOR]], [dir];
    assert a + rest == (a + init) + [last] && b + rest == (b + init) + [last];
    CombineSnoc(a + init, last);
    CombineSnoc(b + init, last);
    if init == [] {
      assert a[..0] == [] && b[..0] == [] && a + init == a && b + init == b;
    } else {
      TrailingSeparator(dir, init);
    }
  }

  ghost predicate NoDouble(s: string) {
    forall i :: 0 <= i < |s| - 1 ==> !(s[i] == PATH_SEPARATOR && s[i + 1] == PATH_SEPARATOR)
  }

  /** What can stand behind another component: no two separators are neighbours, and none comes first. */
  ghost predicate Follows(s: string) {
    NoDouble(s) && (s != "" ==> s[0] != PATH_SEPARATOR)
  }

  /** Combining brings no two separators next to each other. */
  lemma {:induction false} NoNewDouble(first: string, rest: seq<string>)
    requires first != "" && NoDouble(first) && forall i :: 0 <= i < |rest| ==> Follows(rest[i])
    ensures NoDouble(Combine([first] + rest)) && Combine([first] + rest) != ""
    decreases |rest|
  {
    if rest == [] {
      assert [first] + rest == [first] && [first][..0] == [];
    } else {
      var init, last := rest[..|rest| - 1], rest[|rest| - 1];
      assert [first] + rest == ([first] + init) + [last] && Follows(last);
      NoNewDouble(first, init);
      CombineSnoc([first] + init, last);
      NoDoubleBetween(Combine([first] + init), last);
    }
  }

  lemma NoDoubleBetween(a: string, b: string)
    requires NoDouble(a) && a != "" && Follows(b)
    ensures NoDouble(Combine2(a, b)) && Combine2(a, b) != ""
  {
    var s := if a[|a| - 1] == PATH_SEPARATOR then a else a + [PATH_SEPARATOR];
    assert Combine2(a, b) == s + b;
    assert NoDouble(s);
  }

  /** Where no two separators are neighbours, only the first and the last part can be empty. */
  lemma {:induction false} InnerPartsNotEmpty(parts: seq<string>)
    requires NoDouble(Join(parts, PATH_SEPARATOR))
    ensures forall i :: 0 < i < |parts| - 1 ==> parts[i] != ""
    decreases |parts|
  {
    if |parts| > 1 {
      var rest := parts[1..];
      var path, below := Join(parts, PATH_SEPARATOR), Join(rest, PATH_SEPARATOR);
      assert path == parts[0] + [PATH_SEPARATOR] + below;
      NoDoubleBelow(path, parts[0], below);
      InnerPartsNotEmpty(rest);
      if |rest| > 1 { EmptyFirst(rest); }
      assert forall i :: 1 < i < |parts| - 1 ==> parts[i] == rest[i - 1];
    }
  }

  lemma EmptyFirst(parts: seq<string>)
    requires |parts| > 1
    ensures parts[0] == "" ==> [PATH_SEPARATOR] <= Join(parts, PATH_SEPARATOR)
  {
  }

  lemma NoDoubleBelow(path: string, first: string, below: string)
    requires NoDouble(path) && path == first + [PATH_SEPARATOR] + below
    ensures Follows(below)
  {
    var k := |first|;
    assert path[k] == PATH_SEPARATOR && forall i :: 0 <= i < |below| ==> below[i] == path[k + 1 + i];
  }

  lemma FirstPart(parts: seq<string>)
    requires parts != [] && AllWithout(parts, PATH_SEPARATOR)
    ensures var path := Join(parts, PATH_SEPARATOR); parts[0] == "" <==> path == "" || path[0] == PATH_SEPARATOR
  {
  }

  lemma {:induction false} LastPart(parts: seq<string>)
    requires parts != [] && AllWithout(parts, PATH_SEPARATOR)
    ensures var path := Join(parts, PATH_SEPARATOR); Last(parts) == "" <==> path == "" || path[|path| - 1] == PATH_SEPARATOR
    decreases |parts|
  {
    if |parts| > 1 { LastPart(parts[1..]); }
  }

  /** No part of a combined path is empty where the components bring no empty part. */
  lemma NoEmptyParts(args: seq<string>, path: string)
    requires path == Combine(args) && args != [] && forall i :: 0 <= i < |args| ==> args[i] != "" && Follows(args[i])
    requires Last(args)[|Last(args)| - 1] != PATH_SEPARATOR
    ensures "" !in Split(path, PATH_SEPARATOR)
  {
    assert args == [args[0]] + args[1..];
    NoNewDouble(args[0], args[1..]);
    CombineStarts(args);
    CombineEnds(args);
    JoinSplit(path, PATH_SEPARATOR);
    SplitIsDelimiterFree(path, PATH_SEPARATOR);
    NoPartEmpty(Split(path, PATH_SEPARATOR));
  }

  lemma NoPartEmpty(parts: seq<string>)
    requires parts != [] && AllWithout(parts, PATH_SEPARATOR)
    requires var path := Join(parts, PATH_SEPARATOR);
      path != "" && NoDouble(path) && path[0] != PATH_SEPARATOR && path[|path| - 1] != PATH_SEPARATOR
    ensures "" !in parts
  {
    FirstPart(parts);
    LastPart(parts);
    InnerPartsNotEmpty(parts);
  }

  lemma CombineEnds(args: seq<string>)
    requires args != [] && Last(args) != ""
    ensures Combine(args) != "" && Combine(args)[|Combine(args)| - 1] == Last(args)[|Last(args)| - 1]
  {
    CombineSnoc(args[..|args| - 1], Last(args));
    assert args == args[..|args| - 1] + [Last(args)];
  }

  lemma {:induction false} CombineStarts(args: seq<string>)
    requires args != [] && args[0] != ""
    ensures Combine(args) != "" && Combine(args)[0] == args[0][0]
    decreases |args|
  {
    var init, last := args[..|args| - 1], args[|args| - 1];
    if init != [] { CombineStarts(init); }
  }

  /** The server's own directory ends in a separator; a user's path below it has two parts. */
  lemma UserPath(user: string)
    requires user != "" && '/' !in user
    ensures Combine(["userdata/", user]) == "userdata/" + user
    ensures Split(Combine(["userdata/", user]), '/') == ["userdata", user]
  {
    assert "userdata" + [PATH_SEPARATOR] == "userdata/";
    TrailingSeparator("userdata", [user]);
    assert ["userdata/"] + [user] == ["userdata/", user] && ["userdata"] + [user] == ["userdata", user];
    CombineIsJoin(["userdata", user]);
    assert ["userdata", user][1..] == [user];
    SplitJoin(["userdata", user], '/', "userdata/" + user);
  }

  /** sv_split and iterator_last on a path. */
  method FileName(path: View) returns (name: View)
    requires path.EndsAtNul()
    ensures name.Valid()
    ensures name.Contents() == Last(Split(path.Contents(), PATH_SEPARATOR))
  {
    var it := new SplitIterator(path, PATH_SEPARATOR);
    name := IteratorLast(it);
  }

  /** A buffer with its first NUL at `length`. */
  function Terminated(data: string, length: nat): (v: View)
    requires length < |data| && data[length] == NUL && NUL !in data[..length]
    ensures v.EndsAtNul() && v.Contents() == data[..length]
  {
    assert forall k :: 0 <= k < length ==> data[..length][k] == data[k];
    View(data, length)
  }

  /** The client asks for a file by the path it combined: the name that is sent is the name it combined. */
  method RequestedName(dir: string, name: string) returns (requested: View)
    requires NUL !in Combine([dir, name]) && Without(name, |name|, PATH_SEPARATOR)
    requires 0 < |Combine([dir, name])| < PATH_MAX
    ensures requested.Valid() && requested.Contents() == name
  {
    var buffer, length := PathCombine([dir, name]);
    requested := FileName(Terminated(buffer[..], length));
    LastOfPath([dir], name);
    assert [dir] + [name] == [dir, name];
  }
}
