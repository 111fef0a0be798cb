/** The canonical form by which generated JSON schemas are compared with the stored ones. */
module CanonicalJson {
  import opened Results

  datatype Member = Member(key: string, value: Json)

  /** A JSON value. An object keeps its members in the order of insertion, numbers are kept as written. */
  datatype Json =
    | Null
    | Bool(b: bool)
    | Number(text: string)
    | String(s: string)
    | Array(items: seq<Json>)
    | Object(members: seq<Member>)

  // The order of strings, and stable sorting by a pair of them

  predicate Less(a: string, b: string) {
    if b == "" then false
    else if a == "" then true
    else a[0] < b[0] || (a[0] == b[0] && Less(a[1..], b[1..]))
  }

  lemma {:induction false} LessIsTotal(a: string, b: string)
    ensures Less(a, b) || Less(b, a) || a == b
  {
    if a != "" && b != "" && a[0] == b[0] {
      LessIsTotal(a[1..], b[1..]);
      assert a == [a[0]] + a[1..] && b == [b[0]] + b[1..];
    }
  }

  lemma {:induction false} LessIsStrict(a: string, b: string)
    requires Less(a, b)
    ensures !Less(b, a) && a != b
  {
    if a != "" && a[0] == b[0] {
      LessIsStrict(a[1..], b[1..]);
    }
  }

  lemma {:induction false} LessIsTransitive(a: string, b: string, c: string)
    requires Less(a, b) && Less(b, c)
    ensures Less(a, c)
  {
    if a != "" && a[0] == b[0] == c[0] {
      LessIsTransitive(a[1..], b[1..], c[1..]);
    }
  }

  /** What a list is sorted by: the first string, and the second where the first ones are equal. */
  datatype Rank = Rank(first: string, second: string)

  predicate RankLess(a: Rank, b: Rank) {
    Less(a.first, b.first) || (a.first == b.first && Less(a.second, b.second))
  }

  lemma RankIsTotal(a: Rank, b: Rank)
    ensures RankLess(a, b) || RankLess(b, a) || a == b
  {
    LessIsTotal(a.first, b.first);
    LessIsTotal(a.second, b.second);
  }

  lemma RankIsStrict(a: Rank, b: Rank)
    requires RankLess(a, b)
    ensures !RankLess(b, a) && a != b
  {
    if Less(a.first, b.first) {
      LessIsStrict(a.first, b.first);
    } else {
      LessIsStrict(a.second, b.second);
    }
    if Less(b.first, a.first) {
      LessIsStrict(b.first, a.first);
    }
  }

  lemma RankIsTransitive(a: Rank, b: Rank, c: Rank)
    requires RankLess(a, b) && RankLess(b, c)
    ensures RankLess(a, c)
  {
    if Less(a.first, b.first) && Less(b.first, c.first) {
      LessIsTransitive(a.first, b.first, c.first);
    } else if a.first == b.first == c.first {
      LessIsTransitive(a.second, b.second, c.second);
    }
  }

  ghost predicate SortedBy<T(!new)>(xs: seq<T>, rank: T -> Rank) {
    forall i, j :: 0 <= i < j < |xs| ==> !RankLess(rank(xs[j]), rank(xs[i]))
  }

  /** `x` after every entry that does not rank higher. */
  function InsertBy<T>(xs: seq<T>, x: T, rank: T -> Rank): seq<T> {
    if xs == [] || !RankLess(rank(x), rank(xs[|xs| - 1])) then xs + [x]
    else InsertBy(xs[..|xs| - 1], x, rank) + [xs[|xs| - 1]]
  }

  /** `sort_by`: a stable sort. */
  function SortBy<T>(xs: seq<T>, rank: T -> Rank): seq<T> {
    if xs == [] then [] else InsertBy(SortBy(xs[..|xs| - 1], rank), xs[|xs| - 1], rank)
  }

  lemma {:induction false} InsertByKeepsContents<T>(xs: seq<T>, x: T, rank: T -> Rank)
    ensures multiset(InsertBy(xs, x, rank)) == multiset(xs) + multiset{x}
  {
    if xs != [] && RankLess(rank(x), rank(xs[|xs| - 1])) {
      InsertByKeepsContents(xs[..|xs| - 1], x, rank);
      assert xs == xs[..|xs| - 1] + [xs[|xs| - 1]];
    }
  }

  lemma {:induction false} SortByKeepsContents<T>(xs: seq<T>, rank: T -> Rank)
    ensures multiset(SortBy(xs, rank)) == multiset(xs)
  {
    hide InsertBy;
    if xs == [] {
      return;
    }
    var init, last := xs[..|xs| - 1], xs[|xs| - 1];
    SortByKeepsContents(init, rank);
    InsertByKeepsContents(SortBy(init, rank), last, rank);
    assert SortBy(xs, rank) == InsertBy(SortBy(init, rank), last, rank);
    hide SortBy;
    assert xs == init + [last];
  }

  /** The last entry ranks at least as high as all others. */
  lemma SortedSnoc<T(!new)>(xs: seq<T>, last: T, rank: T -> Rank)
    ensures SortedBy(xs + [last], rank)
            <==> SortedBy(xs, rank) && forall x :: x in xs ==> !RankLess(rank(last), rank(x))
  {
    var all := xs + [last];
    assert forall i :: 0 <= i < |xs| ==> all[i] == xs[i];
    if SortedBy(all, rank) {
      forall x | x in xs ensures !RankLess(rank(last), rank(x)) {
        var i :| 0 <= i < |xs| && xs[i] == x;
        assert all[i] == x && all[|xs|] == last;
      }
    }
  }

  lemma NotLessIsTransitive(a: Rank, b: Rank, c: Rank)
    requires !RankLess(b, a) && !RankLess(c, b)
    ensures !RankLess(c, a)
  {
    RankIsTotal(a, b);
    RankIsTotal(b, c);
    if RankLess(c, a) {
      if RankLess(a, b) {
        RankIsTransitive(c, a, b);
      }
    }
  }

  lemma {:induction false} InsertByKeepsOrder<T(!new)>(xs: seq<T>, x: T, rank: T -> Rank)
    requires SortedBy(xs, rank)
    ensures SortedBy(InsertBy(xs, x, rank), rank)
  {
    hide RankLess, SortedBy;
    if xs == [] {
      SortedSnoc([], x, rank);
      assert SortedBy([], rank) by { EmptyIsSorted(rank); }
      assert [] + [x] == xs + [x];
      return;
    }
    var init, last := xs[..|xs| - 1], xs[|xs| - 1];
    assert xs == init + [last];
    SortedSnoc(init, last, rank);
    if RankLess(rank(x), rank(last)) {
      InsertByKeepsOrder(init, x, rank);
      InsertByKeepsContents(init, x, rank);
      RankIsStrict(rank(x), rank(last));
      assert forall y :: y in InsertBy(init, x, rank) ==> y in multiset(InsertBy(init, x, rank));
      SortedSnoc(InsertBy(init, x, rank), last, rank);
    } else {
      forall y | y in xs ensures !RankLess(rank(x), rank(y)) {
        if y in init {
          NotLessIsTransitive(rank(y), rank(last), rank(x));
        }
      }
      SortedSnoc(xs, x, rank);
    }
  }

  lemma EmptyIsSorted<T(!new)>(rank: T -> Rank)
    ensures SortedBy([], rank)
  {
  }

  lemma {:induction false} SortByIsSorted<T(!new)>(xs: seq<T>, rank: T -> Rank)
    ensures SortedBy(SortBy(xs, rank), rank)
  {
    hide SortedBy, RankLess, InsertBy;
    if xs == [] {
      EmptyIsSorted(rank);
      return;
    }
    SortByIsSorted(xs[..|xs| - 1], rank);
    InsertByKeepsOrder(SortBy(xs[..|xs| - 1], rank), xs[|xs| - 1], rank);
  }

  /** Entries of the same rank are the same entry. */
  ghost predicate RanksTellApart<T(!new)>(xs: seq<T>, rank: T -> Rank) {
    forall x, y :: x in xs && y in xs && rank(x) == rank(y) ==> x == y
  }

  lemma SameLast<T(!new)>(a: seq<T>, x: T, b: seq<T>, y: T, rank: T -> Rank)
    requires SortedBy(a + [x], rank) && SortedBy(b + [y], rank)
    requires multiset(a + [x]) == multiset(b + [y]) && RanksTellApart(a + [x], rank)
    ensures x == y && multiset(a) == multiset(b) && RanksTellApart(a, rank)
    ensures SortedBy(a, rank) && SortedBy(b, rank)
  {
    hide RankLess, SortedBy;
    var xs, ys := a + [x], b + [y];
    SortedSnoc(a, x, rank);
    SortedSnoc(b, y, rank);
    assert x in multiset(ys) && y in multiset(xs);
    RankIsTotal(rank(x), rank(y));
    assert x == y;
    assert multiset(a) == multiset(xs) - multiset{x} && multiset(b) == multiset(ys) - multiset{x};
  }

  /** There is one way only to sort entries that ranks tell apart. */
  lemma {:induction false} SortedIsUnique<T(!new)>(xs: seq<T>, ys: seq<T>, rank: T -> Rank)
    requires SortedBy(xs, rank) && SortedBy(ys, rank) && multiset(xs) == multiset(ys) && RanksTellApart(xs, rank)
    ensures xs == ys
  {
    hide RankLess, SortedBy, RanksTellApart;
    assert |xs| == |multiset(xs)| == |multiset(ys)| == |ys|;
    if xs == [] {
      return;
    }
    var a, x, b, y := xs[..|xs| - 1], xs[|xs| - 1], ys[..|ys| - 1], ys[|ys| - 1];
    assert xs == a + [x] && ys == b + [y];
    SameLast(a, x, b, y, rank);
    SortedIsUnique(a, b, rank);
  }

  /** Sorting brings lists with the same entries together. */
  lemma SameContentsSortTheSame<T(!new)>(xs: seq<T>, ys: seq<T>, rank: T -> Rank)
    requires multiset(xs) == multiset(ys) && RanksTellApart(xs, rank)
    ensures SortBy(xs, rank) == SortBy(ys, rank)
  {
    SortByIsSorted(xs, rank);
    SortByIsSorted(ys, rank);
    SortByKeepsContents(xs, rank);
    SortByKeepsContents(ys, rank);
    assert RanksTellApart(SortBy(xs, rank), rank) by {
      assert forall x :: x in SortBy(xs, rank) ==> x in multiset(SortBy(xs, rank));
    }
    SortedIsUnique(SortBy(xs, rank), SortBy(ys, rank), rank);
  }

  // Canonicalising

  /** The string an object holds under a key. */
  function StringUnder(members: seq<Member>, key: string): Option<string> {
    if members == [] then None
    else if members[0].key == key then (if members[0].value.String? then Some(members[0].value.s) else None)
    else StringUnder(members[1..], key)
  }

  /** `schema_array_item_sort_key` */
  function SortKey(item: Json): Option<string> {
    match item
    case Null => Some("null")
    case Bool(b) => Some(if b then "b:true" else "b:false")
    case Number(text) => Some("n:" + text)
    case String(s) => Some("s:" + s)
    case Object(members) =>
      var reference := StringUnder(members, "$ref");
      var title := StringUnder(members, "title");
      if reference.Some? then Some("ref:" + reference.value)
      else if title.Some? then Some("title:" + title.value)
      else None
    case Array(_) => None
  }

  predicate AllKeyed(items: seq<Json>) {
    forall item | item in items :: SortKey(item).Some?
  }

  /** Serialisation, which the sorting falls back on; different values have different texts. */
  type Serialiser = Json -> string

  ghost predicate Injective(serialise: Serialiser) {
    forall a, b :: serialise(a) == serialise(b) ==> a == b
  }

  function ItemRank(serialise: Serialiser): Json -> Rank {
    (item: Json) => Rank(match SortKey(item) case Some(key) => key case None => "", serialise(item))
  }

  function MemberRank(): Member -> Rank {
    (m: Member) => Rank(m.key, "")
  }

  function SortedItems(items: seq<Json>, serialise: Serialiser): seq<Json> {
    if AllKeyed(items) then SortBy(items, ItemRank(serialise)) else items
  }

  /** `canonicalize_json` */
  function Canonical(value: Json, serialise: Serialiser): Json
    decreases value, 1
  {
    match value
    case Array(items) => Array(SortedItems(CanonicalItems(items, serialise), serialise))
    case Object(members) => Object(SortBy(CanonicalMembers(members, serialise), MemberRank()))
    case _ => value
  }

  function CanonicalItems(items: seq<Json>, serialise: Serialiser): (r: seq<Json>)
    ensures |r| == |items|
    ensures forall i :: 0 <= i < |items| ==> r[i] == Canonical(items[i], serialise)
    decreases items, 0
  {
    if items == [] then [] else [Canonical(items[0], serialise)] + CanonicalItems(items[1..], serialise)
  }

  function CanonicalMembers(members: seq<Member>, serialise: Serialiser): (r: seq<Member>)
    ensures |r| == |members|
    ensures forall i :: 0 <= i < |members| ==> r[i] == Member(members[i].key, Canonical(members[i].value, serialise))
    decreases members, 0
  {
    if members == [] then []
    else [Member(members[0].key, Canonical(members[0].value, serialise))] + CanonicalMembers(members[1..], serialise)
  }

  /** No object repeats a key, as in any JSON map. */
  ghost predicate WellFormed(value: Json) {
    match value
    case Array(items) => forall item | item in items :: WellFormed(item)
    case Object(members) => UniqueKeys(members) && forall m | m in members :: WellFormed(m.value)
    case _ => true
  }

  ghost predicate UniqueKeys(members: seq<Member>) {
    forall i, j :: 0 <= i < j < |members| ==> members[i].key != members[j].key
  }

  /** `canonicalize_json` as it runs: a list of results is built up, and sorted when every result has a key. */
  method CanonicalizeJson(value: Json, serialise: Serialiser) returns (r: Json)
    ensures r == Canonical(value, serialise)
    decreases value, 1
  {
    hide SortKey, SortBy, SortedItems, ItemRank, MemberRank;
    match value {
      case Array(items) =>
        var results := CanonicalizeItems(items, serialise);
        results := SortItems(results, serialise);
        return Array(results);
      case Object(members) =>
        var results := CanonicalizeMembers(members, serialise);
        return Object(SortBy(results, MemberRank()));
      case _ =>
        return value;
    }
  }

  /** The items as they are if one of them has no key. */
  method SortItems(items: seq<Json>, serialise: Serialiser) returns (results: seq<Json>)
    ensures results == SortedItems(items, serialise)
  {
    hide SortKey, SortBy, ItemRank;
    for i := 0 to |items|
      invariant forall k :: 0 <= k < i ==> SortKey(items[k]).Some?
    {
      if SortKey(items[i]).None? {
        assert items[i] in items;
        return items;
      }
    }
    assert AllKeyed(items);
    return SortBy(items, ItemRank(serialise));
  }

  method CanonicalizeItems(items: seq<Json>, serialise: Serialiser) returns (results: seq<Json>)
    ensures results == CanonicalItems(items, serialise)
    decreases items, 0
  {
    hide Canonical;
    results := [];
    for i := 0 to |items|
      invariant |results| == i
      invariant forall k :: 0 <= k < i ==> results[k] == Canonical(items[k], serialise)
    {
      var item := CanonicalizeJson(items[i], serialise);
      results := results + [item];
    }
  }

  method CanonicalizeMembers(members: seq<Member>, serialise: Serialiser) returns (results: seq<Member>)
    ensures results == CanonicalMembers(members, serialise)
    decreases members, 0
  {
    hide Canonical;
    results := [];
    for i := 0 to |members|
      invariant |results| == i
      invariant forall k :: 0 <= k < i ==> results[k] == Member(members[k].key, Canonical(members[k].value, serialise))
    {
      var child := CanonicalizeJson(members[i].value, serialise);
      results := results + [Member(members[i].key, child)];
    }
  }

  // Keys survive canonicalising

  lemma {:induction false} StringUnderPresent(members: seq<Member>, m: Member)
    requires UniqueKeys(members) && m in members
    ensures StringUnder(members, m.key) == if m.value.String? then Some(m.value.s) else None
  {
    if members[0] != m {
      var i :| 0 <= i < |members| && members[i] == m;
      assert m in members[1..];
      StringUnderPresent(members[1..], m);
    }
  }

  lemma {:induction false} StringUnderAbsent(members: seq<Member>, key: string)
    requires forall m :: m in members ==> m.key != key
    ensures StringUnder(members, key) == None
  {
    if members != [] {
      assert members[0] in members && forall m :: m in members[1..] ==> m in members;
      StringUnderAbsent(members[1..], key);
    }
  }

  lemma {:induction false} StringUnderCanonical(members: seq<Member>, key: string, serialise: Serialiser)
    ensures StringUnder(CanonicalMembers(members, serialise), key) == StringUnder(members, key)
  {
    if members != [] {
      StringUnderCanonical(members[1..], key, serialise);
      assert CanonicalMembers(members, serialise)[1..] == CanonicalMembers(members[1..], serialise);
    }
  }

  lemma StringUnderPermuted(a: seq<Member>, b: seq<Member>, key: string)
    requires multiset(a) == multiset(b) && UniqueKeys(a) && UniqueKeys(b)
    ensures StringUnder(a, key) == StringUnder(b, key)
  {
    if exists m :: m in a && m.key == key {
      var m :| m in a && m.key == key;
      assert m in multiset(b);
      StringUnderPresent(a, m);
      StringUnderPresent(b, m);
    } else {
      assert forall m :: m in b ==> m in multiset(b);
      StringUnderAbsent(a, key);
      StringUnderAbsent(b, key);
    }
  }

  /** Keys stay unique under any reordering. */
  lemma UniqueKeysPermuted(a: seq<Member>, b: seq<Member>)
    requires multiset(a) == multiset(b) && UniqueKeys(a)
    ensures UniqueKeys(b)
  {
    forall i, j | 0 <= i < j < |b| ensures b[i].key != b[j].key {
      if b[i].key == b[j].key {
        assert b[i] in multiset(a) && b[j] in multiset(a);
        assert b[i] in a && b[j] in a;
        SameKeySameMember(a, b[i], b[j]);
        TwiceInSeq(b, i, j);
        OnceWithUniqueKeys(a, b[i]);
      }
    }
  }

  lemma SameKeySameMember(a: seq<Member>, x: Member, y: Member)
    requires UniqueKeys(a) && x in a && y in a && x.key == y.key
    ensures x == y
  {
  }

  lemma TwiceInSeq<T>(s: seq<T>, i: nat, j: nat)
    requires i < j < |s| && s[i] == s[j]
    ensures multiset(s)[s[i]] >= 2
  {
    assert s == s[..j] + [s[j]] + s[j + 1..];
    assert s[i] in s[..j];
    assert s[..j][i] == s[i];
  }

  lemma {:induction false} OnceWithUniqueKeys(a: seq<Member>, m: Member)
    requires UniqueKeys(a)
    ensures multiset(a)[m] <= 1
  {
    if a != [] {
      OnceWithUniqueKeys(a[1..], m);
      assert a == [a[0]] + a[1..];
      if a[0] == m {
        assert m !in a[1..];
      }
    }
  }

  lemma MemberRanksTellApart(members: seq<Member>)
    requires UniqueKeys(members)
    ensures RanksTellApart(members, MemberRank())
  {
  }

  lemma ItemRanksTellApart(items: seq<Json>, serialise: Serialiser)
    requires Injective(serialise)
    ensures RanksTellApart(items, ItemRank(serialise))
  {
  }

  lemma CanonicalMembersUnique(members: seq<Member>, serialise: Serialiser)
    requires UniqueKeys(members)
    ensures UniqueKeys(CanonicalMembers(members, serialise))
    ensures UniqueKeys(SortBy(CanonicalMembers(members, serialise), MemberRank()))
  {
    var cs := CanonicalMembers(members, serialise);
    SortByKeepsContents(cs, MemberRank());
    UniqueKeysPermuted(cs, SortBy(cs, MemberRank()));
  }

  lemma StringUnderSortedCanonical(members: seq<Member>, key: string, serialise: Serialiser)
    requires UniqueKeys(members)
    ensures StringUnder(SortBy(CanonicalMembers(members, serialise), MemberRank()), key) == StringUnder(members, key)
  {
    hide SortBy, StringUnder, MemberRank;
    var cs := CanonicalMembers(members, serialise);
    CanonicalMembersUnique(members, serialise);
    SortByKeepsContents(cs, MemberRank());
    StringUnderPermuted(SortBy(cs, MemberRank()), cs, key);
    StringUnderCanonical(members, key, serialise);
  }

  /** The sort key of a value is that of its canonical form. */
  lemma SortKeyOfCanonical(value: Json, serialise: Serialiser)
    requires WellFormed(value)
    ensures SortKey(Canonical(value, serialise)) == SortKey(value)
  {
    hide SortBy, StringUnder, MemberRank, SortedItems;
    if value.Object? {
      StringUnderSortedCanonical(value.members, "$ref", serialise);
      StringUnderSortedCanonical(value.members, "title", serialise);
    }
  }

  lemma KeyedIffCanonicalKeyed(items: seq<Json>, serialise: Serialiser)
    requires forall item :: item in items ==> WellFormed(item)
    ensures AllKeyed(CanonicalItems(items, serialise)) <==> AllKeyed(items)
  {
    var cs := CanonicalItems(items, serialise);
    forall i | 0 <= i < |items| ensures SortKey(cs[i]) == SortKey(items[i]) {
      SortKeyOfCanonical(items[i], serialise);
    }
    if AllKeyed(cs) {
      forall item | item in items ensures SortKey(item).Some? {
        var i :| 0 <= i < |items| && items[i] == item;
        assert cs[i] in cs;
      }
    }
  }

  // When two values differ by order only

  function Without<T>(xs: seq<T>, j: nat): (r: seq<T>)
    requires j < |xs|
    ensures |r| == |xs| - 1
  {
    xs[..j] + xs[j + 1..]
  }

  /** `a` and `b` differ, at any depth, only by the order of object members and by the order of arrays
      whose elements all have a sort key. */
  ghost predicate SameUpToOrder(a: Json, b: Json)
    decreases a, 1
  {
    match (a, b)
    case (Array(xs), Array(ys)) => InOrder(xs, ys) || (AllKeyed(xs) && AllKeyed(ys) && InAnyOrder(xs, ys))
    case (Object(ms), Object(ns)) => MembersInAnyOrder(ms, ns)
    case _ => a == b
  }

  ghost predicate InOrder(xs: seq<Json>, ys: seq<Json>)
    decreases xs, 0
  {
    if xs == [] then ys == []
    else ys != [] && SameUpToOrder(xs[0], ys[0]) && InOrder(xs[1..], ys[1..])
  }

  ghost predicate InAnyOrder(xs: seq<Json>, ys: seq<Json>)
    decreases xs, 0
  {
    if xs == [] then ys == []
    else exists j :: 0 <= j < |ys| && SameUpToOrder(xs[0], ys[j]) && InAnyOrder(xs[1..], Without(ys, j))
  }

  ghost predicate MembersInAnyOrder(ms: seq<Member>, ns: seq<Member>)
    decreases ms, 0
  {
    if ms == [] then ns == []
    else exists j :: 0 <= j < |ns| && ms[0].key == ns[j].key && SameUpToOrder(ms[0].value, ns[j].value)
                     && MembersInAnyOrder(ms[1..], Without(ns, j))
  }

  lemma WithoutContents<T>(xs: seq<T>, j: nat)
    requires j < |xs|
    ensures multiset(xs) == multiset(Without(xs, j)) + multiset{xs[j]}
  {
    assert xs == xs[..j] + [xs[j]] + xs[j + 1..];
  }

  lemma PointwiseWithout<A, B>(f: A -> B, xs: seq<A>, cs: seq<B>, ds: seq<B>, j: nat)
    requires j < |xs| && |cs| == |xs| && |ds| == |xs| - 1
    requires forall k :: 0 <= k < |xs| ==> cs[k] == f(xs[k])
    requires forall k :: 0 <= k < |ds| ==> ds[k] == f(Without(xs, j)[k])
    ensures multiset(cs) == multiset(ds) + multiset{f(xs[j])}
  {
    var ws := Without(cs, j);
    forall k | 0 <= k < |ds| ensures ds[k] == ws[k] {
      assert Without(xs, j)[k] == if k < j then xs[k] else xs[k + 1];
      assert ws[k] == if k < j then cs[k] else cs[k + 1];
    }
    assert ds == ws;
    WithoutContents(cs, j);
  }

  lemma CanonicalItemsWithout(ys: seq<Json>, j: nat, serialise: Serialiser)
    requires j < |ys|
    ensures multiset(CanonicalItems(ys, serialise))
            == multiset(CanonicalItems(Without(ys, j), serialise)) + multiset{Canonical(ys[j], serialise)}
  {
    hide Canonical, Without;
    PointwiseWithout((x: Json) => Canonical(x, serialise), ys, CanonicalItems(ys, serialise), CanonicalItems(Without(ys, j), serialise), j);
  }

  lemma CanonicalMembersWithout(ns: seq<Member>, j: nat, serialise: Serialiser)
    requires j < |ns|
    ensures multiset(CanonicalMembers(ns, serialise))
            == multiset(CanonicalMembers(Without(ns, j), serialise))
               + multiset{Member(ns[j].key, Canonical(ns[j].value, serialise))}
  {
    hide Canonical, Without;
    PointwiseWithout((m: Member) => Member(m.key, Canonical(m.value, serialise)), ns, CanonicalMembers(ns, serialise), CanonicalMembers(Without(ns, j), serialise), j);
  }

  lemma CanonicalItemsFirst(xs: seq<Json>, serialise: Serialiser)
    requires xs != []
    ensures multiset(CanonicalItems(xs, serialise))
            == multiset(CanonicalItems(xs[1..], serialise)) + multiset{Canonical(xs[0], serialise)}
  {
    hide Canonical;
    CanonicalItemsWithout(xs, 0, serialise);
    assert Without(xs, 0) == xs[1..];
  }

  lemma CanonicalMembersFirst(ms: seq<Member>, serialise: Serialiser)
    requires ms != []
    ensures multiset(CanonicalMembers(ms, serialise))
            == multiset(CanonicalMembers(ms[1..], serialise)) + multiset{Member(ms[0].key, Canonical(ms[0].value, serialise))}
  {
    hide Canonical;
    CanonicalMembersWithout(ms, 0, serialise);
    assert Without(ms, 0) == ms[1..];
  }

  ghost predicate AllWellFormed(items: seq<Json>) {
    forall item :: item in items ==> WellFormed(item)
  }

  ghost predicate AllValuesWellFormed(members: seq<Member>) {
    forall m :: m in members ==> WellFormed(m.value)
  }

  lemma ArrayWellFormed(items: seq<Json>)
    ensures WellFormed(Array(items)) <==> AllWellFormed(items)
  {
  }

  lemma ObjectWellFormed(members: seq<Member>)
    ensures WellFormed(Object(members)) <==> UniqueKeys(members) && AllValuesWellFormed(members)
  {
  }

  lemma WithoutWellFormed(ys: seq<Json>, j: nat)
    requires AllWellFormed(ys) && j < |ys|
    ensures AllWellFormed(Without(ys, j)) && WellFormed(ys[j])
  {
    assert forall y :: y in Without(ys, j) ==> y in ys;
  }

  lemma WithoutValuesWellFormed(ns: seq<Member>, j: nat)
    requires AllValuesWellFormed(ns) && j < |ns|
    ensures AllValuesWellFormed(Without(ns, j)) && WellFormed(ns[j].value)
  {
    assert forall y :: y in Without(ns, j) ==> y in ns;
  }

  // Same up to order, same canonical form

  lemma {:induction false} OrderDoesNotMatter(a: Json, b: Json, serialise: Serialiser)
    requires Injective(serialise) && WellFormed(a) && WellFormed(b) && SameUpToOrder(a, b)
    ensures Canonical(a, serialise) == Canonical(b, serialise)
    decreases a, 1
  {
    match (a, b) {
      case (Array(xs), Array(ys)) =>
        hide WellFormed, SortKey, Injective, SortBy, InOrder, InAnyOrder;
        ArrayWellFormed(xs);
        ArrayWellFormed(ys);
        if InOrder(xs, ys) {
          InOrderCanonical(xs, ys, serialise);
        } else {
          InAnyOrderCanonical(xs, ys, serialise);
          KeyedItemsSortTheSame(xs, ys, serialise);
        }
      case (Object(ms), Object(ns)) =>
        hide WellFormed, SortKey, Injective, SortBy, MembersInAnyOrder;
        ObjectWellFormed(ms);
        ObjectWellFormed(ns);
        MembersCanonical(ms, ns, serialise);
        MembersSortTheSame(ms, ns, serialise);
      case _ =>
    }
  }

  lemma KeyedItemsSortTheSame(xs: seq<Json>, ys: seq<Json>, serialise: Serialiser)
    requires Injective(serialise) && AllWellFormed(xs) && AllWellFormed(ys) && AllKeyed(xs) && AllKeyed(ys)
    requires multiset(CanonicalItems(xs, serialise)) == multiset(CanonicalItems(ys, serialise))
    ensures SortedItems(CanonicalItems(xs, serialise), serialise) == SortedItems(CanonicalItems(ys, serialise), serialise)
  {
    hide WellFormed, SortKey, SortBy, Canonical, AllKeyed, ItemRank;
    KeyedIffCanonicalKeyed(xs, serialise);
    KeyedIffCanonicalKeyed(ys, serialise);
    ItemRanksTellApart(CanonicalItems(xs, serialise), serialise);
    SameContentsSortTheSame(CanonicalItems(xs, serialise), CanonicalItems(ys, serialise), ItemRank(serialise));
  }

  lemma MembersSortTheSame(ms: seq<Member>, ns: seq<Member>, serialise: Serialiser)
    requires UniqueKeys(ms)
    requires multiset(CanonicalMembers(ms, serialise)) == multiset(CanonicalMembers(ns, serialise))
    ensures SortBy(CanonicalMembers(ms, serialise), MemberRank()) == SortBy(CanonicalMembers(ns, serialise), MemberRank())
  {
    hide SortBy, Canonical, MemberRank;
    CanonicalMembersUnique(ms, serialise);
    MemberRanksTellApart(CanonicalMembers(ms, serialise));
    SameContentsSortTheSame(CanonicalMembers(ms, serialise), CanonicalMembers(ns, serialise), MemberRank());
  }

  lemma {:induction false} InOrderCanonical(xs: seq<Json>, ys: seq<Json>, serialise: Serialiser)
    requires Injective(serialise) && AllWellFormed(xs) && AllWellFormed(ys) && InOrder(xs, ys)
    ensures CanonicalItems(xs, serialise) == CanonicalItems(ys, serialise)
    decreases xs, 0
  {
    hide WellFormed, Canonical, SameUpToOrder, Injective;
    if xs != [] {
      OrderDoesNotMatter(xs[0], ys[0], serialise);
      InOrderCanonical(xs[1..], ys[1..], serialise);
    }
  }

  lemma {:induction false} InAnyOrderCanonical(xs: seq<Json>, ys: seq<Json>, serialise: Serialiser)
    requires Injective(serialise) && AllWellFormed(xs) && AllWellFormed(ys) && InAnyOrder(xs, ys)
    ensures multiset(CanonicalItems(xs, serialise)) == multiset(CanonicalItems(ys, serialise))
    decreases xs, 0
  {
    hide WellFormed, Canonical, SameUpToOrder, Injective, CanonicalItems;
    if xs == [] {
      return;
    }
    var j :| 0 <= j < |ys| && SameUpToOrder(xs[0], ys[j]) && InAnyOrder(xs[1..], Without(ys, j));
    WithoutWellFormed(xs, 0);
    WithoutWellFormed(ys, j);
    assert Without(xs, 0) == xs[1..];
    OrderDoesNotMatter(xs[0], ys[j], serialise);
    InAnyOrderCanonical(xs[1..], Without(ys, j), serialise);
    CanonicalItemsFirst(xs, serialise);
    CanonicalItemsWithout(ys, j, serialise);
  }

  lemma {:induction false} MembersCanonical(ms: seq<Member>, ns: seq<Member>, serialise: Serialiser)
    requires Injective(serialise) && AllValuesWellFormed(ms) && AllValuesWellFormed(ns) && MembersInAnyOrder(ms, ns)
    ensures multiset(CanonicalMembers(ms, serialise)) == multiset(CanonicalMembers(ns, serialise))
    decreases ms, 0
  {
    hide WellFormed, Canonical, SameUpToOrder, Injective, CanonicalMembers;
    if ms == [] {
      return;
    }
    var j :| 0 <= j < |ns| && ms[0].key == ns[j].key && SameUpToOrder(ms[0].value, ns[j].value)
             && MembersInAnyOrder(ms[1..], Without(ns, j));
    WithoutValuesWellFormed(ms, 0);
    WithoutValuesWellFormed(ns, j);
    assert Without(ms, 0) == ms[1..];
    OrderDoesNotMatter(ms[0].value, ns[j].value, serialise);
    MembersCanonical(ms[1..], Without(ns, j), serialise);
    CanonicalMembersFirst(ms, serialise);
    CanonicalMembersWithout(ns, j, serialise);
  }

  // Same canonical form, same up to order

  lemma {:induction false} OnlyOrderIsLost(a: Json, b: Json, serialise: Serialiser)
    requires WellFormed(a) && WellFormed(b) && Canonical(a, serialise) == Canonical(b, serialise)
    ensures SameUpToOrder(a, b)
    decreases a, 1
  {
    match (a, b) {
      case (Array(xs), Array(ys)) =>
        hide WellFormed, SortKey, SortBy, InOrder, InAnyOrder, SortedItems;
        ArrayWellFormed(xs);
        ArrayWellFormed(ys);
        SortedItemsShape(xs, ys, serialise);
        if AllKeyed(xs) {
          AnyOrderFromCanonical(xs, ys, serialise);
        } else {
          OrderFromCanonical(xs, ys, serialise);
        }
      case (Object(ms), Object(ns)) =>
        hide WellFormed, SortKey, SortBy, MembersInAnyOrder;
        ObjectWellFormed(ms);
        ObjectWellFormed(ns);
        SortByKeepsContents(CanonicalMembers(ms, serialise), MemberRank());
        SortByKeepsContents(CanonicalMembers(ns, serialise), MemberRank());
        MembersFromCanonical(ms, ns, serialise);
      case _ =>
    }
  }

  lemma KeyedAfterSorting(items: seq<Json>, serialise: Serialiser)
    ensures multiset(SortedItems(items, serialise)) == multiset(items)
    ensures AllKeyed(SortedItems(items, serialise)) <==> AllKeyed(items)
  {
    hide SortKey, SortBy, ItemRank;
    SortByKeepsContents(items, ItemRank(serialise));
    var sorted := SortedItems(items, serialise);
    assert forall x :: x in sorted <==> x in multiset(sorted);
    assert forall x :: x in items <==> x in multiset(items);
  }

  /** Equal sorted lists are lists both with keys and the same contents, or both without and equal. */
  lemma SortedItemsShape(xs: seq<Json>, ys: seq<Json>, serialise: Serialiser)
    requires AllWellFormed(xs) && AllWellFormed(ys)
    requires SortedItems(CanonicalItems(xs, serialise), serialise) == SortedItems(CanonicalItems(ys, serialise), serialise)
    ensures AllKeyed(xs) <==> AllKeyed(ys)
    ensures multiset(CanonicalItems(xs, serialise)) == multiset(CanonicalItems(ys, serialise))
    ensures !AllKeyed(xs) ==> CanonicalItems(xs, serialise) == CanonicalItems(ys, serialise)
  {
    hide WellFormed, AllKeyed, SortBy, Canonical;
    KeyedIffCanonicalKeyed(xs, serialise);
    KeyedIffCanonicalKeyed(ys, serialise);
    KeyedAfterSorting(CanonicalItems(xs, serialise), serialise);
    KeyedAfterSorting(CanonicalItems(ys, serialise), serialise);
  }

  lemma {:induction false} OrderFromCanonical(xs: seq<Json>, ys: seq<Json>, serialise: Serialiser)
    requires AllWellFormed(xs) && AllWellFormed(ys)
    requires CanonicalItems(xs, serialise) == CanonicalItems(ys, serialise)
    ensures InOrder(xs, ys)
    decreases xs, 0
  {
    hide WellFormed, Canonical, SameUpToOrder;
    assert |xs| == |CanonicalItems(xs, serialise)| == |CanonicalItems(ys, serialise)| == |ys|;
    if xs != [] {
      assert CanonicalItems(xs, serialise)[0] == CanonicalItems(ys, serialise)[0];
      assert CanonicalItems(xs, serialise)[1..] == CanonicalItems(ys, serialise)[1..];
      OnlyOrderIsLost(xs[0], ys[0], serialise);
      OrderFromCanonical(xs[1..], ys[1..], serialise);
    }
  }

  lemma FindCanonical(ys: seq<Json>, x: Json, serialise: Serialiser) returns (j: nat)
    requires Canonical(x, serialise) in multiset(CanonicalItems(ys, serialise))
    ensures j < |ys| && Canonical(ys[j], serialise) == Canonical(x, serialise)
  {
    hide Canonical;
    var cs := CanonicalItems(ys, serialise);
    assert Canonical(x, serialise) in cs;
    j :| 0 <= j < |cs| && cs[j] == Canonical(x, serialise);
  }

  lemma {:induction false} AnyOrderFromCanonical(xs: seq<Json>, ys: seq<Json>, serialise: Serialiser)
    requires AllWellFormed(xs) && AllWellFormed(ys)
    requires multiset(CanonicalItems(xs, serialise)) == multiset(CanonicalItems(ys, serialise))
    ensures InAnyOrder(xs, ys)
    decreases xs, 0
  {
    hide WellFormed, Canonical, SameUpToOrder, CanonicalItems;
    SameCount(xs, ys, serialise);
    if xs == [] {
      return;
    }
    CanonicalItemsFirst(xs, serialise);
    var j := FindCanonical(ys, xs[0], serialise);
    CanonicalItemsWithout(ys, j, serialise);
    WithoutWellFormed(xs, 0);
    WithoutWellFormed(ys, j);
    assert Without(xs, 0) == xs[1..];
    OnlyOrderIsLost(xs[0], ys[j], serialise);
    CancelOne(multiset(CanonicalItems(xs[1..], serialise)), multiset(CanonicalItems(Without(ys, j), serialise)),
              Canonical(xs[0], serialise));
    AnyOrderFromCanonical(xs[1..], Without(ys, j), serialise);
    hide InAnyOrder, AllWellFormed, Without;
    FirstInAnyOrder(xs, ys, j);
  }

  lemma CancelOne<T>(a: multiset<T>, b: multiset<T>, x: T)
    requires a + multiset{x} == b + multiset{x}
    ensures a == b
  {
    assert a == a + multiset{x} - multiset{x};
    assert b == b + multiset{x} - multiset{x};
  }

  lemma FirstInAnyOrder(xs: seq<Json>, ys: seq<Json>, j: nat)
    requires xs != [] && j < |ys| && SameUpToOrder(xs[0], ys[j]) && InAnyOrder(xs[1..], Without(ys, j))
    ensures InAnyOrder(xs, ys)
  {
    hide SameUpToOrder;
  }

  lemma FirstMemberInAnyOrder(ms: seq<Member>, ns: seq<Member>, j: nat)
    requires ms != [] && j < |ns| && ms[0].key == ns[j].key && SameUpToOrder(ms[0].value, ns[j].value)
    requires MembersInAnyOrder(ms[1..], Without(ns, j))
    ensures MembersInAnyOrder(ms, ns)
  {
    hide SameUpToOrder;
  }

  lemma SameCount(xs: seq<Json>, ys: seq<Json>, serialise: Serialiser)
    requires multiset(CanonicalItems(xs, serialise)) == multiset(CanonicalItems(ys, serialise))
    ensures |xs| == |ys|
  {
    assert |xs| == |multiset(CanonicalItems(xs, serialise))|;
    assert |ys| == |multiset(CanonicalItems(ys, serialise))|;
  }

  lemma SameMemberCount(ms: seq<Member>, ns: seq<Member>, serialise: Serialiser)
    requires multiset(CanonicalMembers(ms, serialise)) == multiset(CanonicalMembers(ns, serialise))
    ensures |ms| == |ns|
  {
    assert |ms| == |multiset(CanonicalMembers(ms, serialise))|;
    assert |ns| == |multiset(CanonicalMembers(ns, serialise))|;
  }

  lemma FindMember(ns: seq<Member>, m: Member, serialise: Serialiser) returns (j: nat)
    requires Member(m.key, Canonical(m.value, serialise)) in multiset(CanonicalMembers(ns, serialise))
    ensures j < |ns| && ns[j].key == m.key && Canonical(ns[j].value, serialise) == Canonical(m.value, serialise)
  {
    hide Canonical;
    var cs := CanonicalMembers(ns, serialise);
    assert Member(m.key, Canonical(m.value, serialise)) in cs;
    j :| 0 <= j < |cs| && cs[j] == Member(m.key, Canonical(m.value, serialise));
  }

  lemma {:induction false} MembersFromCanonical(ms: seq<Member>, ns: seq<Member>, serialise: Serialiser)
    requires AllValuesWellFormed(ms) && AllValuesWellFormed(ns)
    requires multiset(CanonicalMembers(ms, serialise)) == multiset(CanonicalMembers(ns, serialise))
    ensures MembersInAnyOrder(ms, ns)
    decreases ms, 0
  {
    hide WellFormed, Canonical, SameUpToOrder, CanonicalMembers;
    SameMemberCount(ms, ns, serialise);
    if ms == [] {
      return;
    }
    CanonicalMembersFirst(ms, serialise);
    var j := FindMember(ns, ms[0], serialise);
    CanonicalMembersWithout(ns, j, serialise);
    WithoutValuesWellFormed(ms, 0);
    WithoutValuesWellFormed(ns, j);
    assert Without(ms, 0) == ms[1..];
    OnlyOrderIsLost(ms[0].value, ns[j].value, serialise);
    CancelOne(multiset(CanonicalMembers(ms[1..], serialise)), multiset(CanonicalMembers(Without(ns, j), serialise)),
              Member(ms[0].key, Canonical(ms[0].value, serialise)));
    MembersFromCanonical(ms[1..], Without(ns, j), serialise);
    hide MembersInAnyOrder, AllValuesWellFormed, Without;
    FirstMemberInAnyOrder(ms, ns, j);
  }

  /** The canonical form decides sameness up to order: two values have the same one if and only if they
      differ only by the order of object members and of arrays whose elements all have a key. */
  lemma SameCanonicalIff(a: Json, b: Json, serialise: Serialiser)
    requires Injective(serialise) && WellFormed(a) && WellFormed(b)
    ensures Canonical(a, serialise) == Canonical(b, serialise) <==> SameUpToOrder(a, b)
  {
    hide WellFormed, Canonical, SameUpToOrder, Injective;
    if Canonical(a, serialise) == Canonical(b, serialise) {
      OnlyOrderIsLost(a, b, serialise);
    } else if SameUpToOrder(a, b) {
      OrderDoesNotMatter(a, b, serialise);
    }
  }

  // Idempotence

  lemma SortedListStays<T(!new)>(xs: seq<T>, rank: T -> Rank)
    requires RanksTellApart(xs, rank)
    ensures SortBy(SortBy(xs, rank), rank) == SortBy(xs, rank)
  {
    SortByKeepsContents(xs, rank);
    SameContentsSortTheSame(xs, SortBy(xs, rank), rank);
  }

  lemma SortedItemsStay(items: seq<Json>, serialise: Serialiser)
    requires Injective(serialise)
    ensures SortedItems(SortedItems(items, serialise), serialise) == SortedItems(items, serialise)
  {
    KeyedAfterSorting(items, serialise);
    ItemRanksTellApart(items, serialise);
    SortedListStays(items, ItemRank(serialise));
  }

  ghost predicate AllFixed(items: seq<Json>, serialise: Serialiser) {
    forall item :: item in items ==> Canonical(item, serialise) == item
  }

  lemma FixedItems(items: seq<Json>, serialise: Serialiser)
    requires AllFixed(items, serialise)
    ensures CanonicalItems(items, serialise) == items
  {
    hide Canonical;
    assert forall i :: 0 <= i < |items| ==> items[i] in items;
  }

  lemma FixedMembers(members: seq<Member>, serialise: Serialiser)
    requires forall m :: m in members ==> Canonical(m.value, serialise) == m.value
    ensures CanonicalMembers(members, serialise) == members
  {
    hide Canonical;
    assert forall i :: 0 <= i < |members| ==> members[i] in members;
  }

  /** Canonicalising a canonical form changes nothing. */
  lemma {:induction false} CanonicalIsStable(value: Json, serialise: Serialiser)
    requires Injective(serialise) && WellFormed(value)
    ensures Canonical(Canonical(value, serialise), serialise) == Canonical(value, serialise)
    decreases value
  {
    match value {
      case Array(items) =>
        var cs := CanonicalItems(items, serialise);
        var sorted := SortedItems(cs, serialise);
        forall item | item in cs ensures Canonical(item, serialise) == item {
          var i :| 0 <= i < |cs| && cs[i] == item;
          CanonicalIsStable(items[i], serialise);
        }
        hide WellFormed, SortKey, SortBy, Injective;
        KeyedAfterSorting(cs, serialise);
        assert AllFixed(sorted, serialise) by {
          assert forall x :: x in sorted ==> x in multiset(sorted);
        }
        FixedItems(sorted, serialise);
        SortedItemsStay(cs, serialise);
      case Object(members) =>
        var cs := CanonicalMembers(members, serialise);
        var sorted := SortBy(cs, MemberRank());
        forall m | m in cs ensures Canonical(m.value, serialise) == m.value {
          var i :| 0 <= i < |cs| && cs[i] == m;
          CanonicalIsStable(members[i].value, serialise);
        }
        CanonicalMembersUnique(members, serialise);
        hide WellFormed, SortKey, SortBy, Injective;
        SortByKeepsContents(cs, MemberRank());
        assert forall x :: x in sorted ==> x in multiset(sorted);
        FixedMembers(sorted, serialise);
        MemberRanksTellApart(cs);
        SortedListStays(cs, MemberRank());
      case _ =>
    }
  }
}
