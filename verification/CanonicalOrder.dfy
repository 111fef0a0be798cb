/** What the canonical form looks like: which arrays are sorted, by what, and in which order members stand. */
module CanonicalOrder {
  import opened Results
  import opened CanonicalJson

  // The order of strings

  /** `a` is a proper beginning of `b`, or has the smaller character where they first differ. */
  ghost predicate Ascending(a: string, b: string) {
    || (|a| < |b| && a == b[..|a|])
    || exists k :: DifferAt(a, b, k) && a[k] < b[k]
  }

  predicate DifferAt(a: string, b: string, k: int) {
    0 <= k < |a| && k < |b| && a[..k] == b[..k] && a[k] != b[k]
  }

  lemma DifferFurtherOn(a: string, b: string, k: int)
    requires a != "" && b != "" && a[0] == b[0]
    ensures DifferAt(a[1..], b[1..], k) ==> DifferAt(a, b, k + 1)
    ensures k > 0 && DifferAt(a, b, k) ==> DifferAt(a[1..], b[1..], k - 1)
  {
    if DifferAt(a[1..], b[1..], k) {
      assert a[..k + 1] == [a[0]] + a[1..][..k] && b[..k + 1] == [b[0]] + b[1..][..k];
    }
    if k > 0 && DifferAt(a, b, k) {
      assert a[1..][..k - 1] == a[..k][1..] && b[1..][..k - 1] == b[..k][1..];
    }
  }

  lemma {:induction false} LessIffAscending(a: string, b: string)
    ensures Less(a, b) <==> Ascending(a, b)
  {
    if a == "" || b == "" {
      return;
    }
    if a[0] != b[0] {
      assert DifferAt(a, b, 0);
      return;
    }
    LessIffAscending(a[1..], b[1..]);
    assert |a| < |b| && a == b[..|a|] <==> |a[1..]| < |b[1..]| && a[1..] == b[1..][..|a[1..]|] by {
      assert a == [a[0]] + a[1..];
      assert |a| <= |b| ==> b[..|a|] == [b[0]] + b[1..][..|a| - 1];
    }
    if k :| DifferAt(a, b, k) && a[k] < b[k] {
      DifferFurtherOn(a, b, k);
    }
    if k :| DifferAt(a[1..], b[1..], k) && a[1..][k] < b[1..][k] {
      DifferFurtherOn(a, b, k);
    }
  }

  // What an element of an array is sorted by

  /** The object has the string `text` under `key`. */
  ghost predicate Holds(item: Json, key: string, text: string) {
    item.Object? && Member(key, String(text)) in item.members
  }

  ghost predicate HasString(item: Json, key: string) {
    exists text :: Holds(item, key, text)
  }

  /** Elements that can be sorted: scalars, and objects with a reference or a title. */
  ghost predicate Sortable(item: Json) {
    item.Null? || item.Bool? || item.Number? || item.String? || HasString(item, "$ref") || HasString(item, "title")
  }

  /** Booleans come first, then numbers, null, objects with a reference, strings, and objects with a title
      only; within a group the text decides. */
  ghost predicate StandsIn(item: Json, group: nat, text: string) {
    match group
    case 0 => (item == Bool(true) && text == "true") || (item == Bool(false) && text == "false")
    case 1 => item == Number(text)
    case 2 => item == Null && text == ""
    case 3 => Holds(item, "$ref", text)
    case 4 => item == String(text)
    case 5 => !HasString(item, "$ref") && Holds(item, "title", text)
    case _ => false
  }

  function GroupPrefix(group: nat): string {
    match group
    case 0 => "b:"
    case 1 => "n:"
    case 2 => "null"
    case 3 => "ref:"
    case 4 => "s:"
    case _ => "title:"
  }

  lemma StringUnderIs(item: Json, key: string, text: string)
    requires item.Object? && WellFormed(item)
    ensures StringUnder(item.members, key) == Some(text) <==> Holds(item, key, text)
  {
    hide StringUnder;
    if m :| m in item.members && m.key == key {
      StringUnderPresent(item.members, m);
      if Holds(item, key, text) {
        StringUnderPresent(item.members, Member(key, String(text)));
      }
    } else {
      StringUnderAbsent(item.members, key);
    }
  }

  lemma HasStringIff(item: Json, key: string)
    requires item.Object? && WellFormed(item)
    ensures StringUnder(item.members, key).Some? <==> HasString(item, key)
  {
    hide StringUnder, WellFormed, Holds;
    if StringUnder(item.members, key).Some? {
      StringUnderIs(item, key, StringUnder(item.members, key).value);
    }
    if text :| Holds(item, key, text) {
      StringUnderIs(item, key, text);
    }
  }

  /** The key of an element that stands in a group is made of that and its text. */
  lemma KeyOfGroup(item: Json, group: nat, text: string)
    requires WellFormed(item) && StandsIn(item, group, text)
    ensures SortKey(item) == Some(GroupPrefix(group) + text)
  {
    hide WellFormed, StringUnder, HasString;
    assert "null" + "" == "null" && "b:" + "true" == "b:true" && "b:" + "false" == "b:false";
    if item.Object? {
      HasStringIff(item, "$ref");
      if group == 3 {
        StringUnderIs(item, "$ref", text);
      } else if group == 5 {
        StringUnderIs(item, "title", text);
      }
    }
  }

  /** An element that can be sorted stands in one group. */
  lemma GroupOf(item: Json) returns (group: nat, text: string)
    requires Sortable(item)
    ensures StandsIn(item, group, text)
  {
    match item {
      case Null => group, text := 2, "";
      case Bool(b) => group, text := 0, if b then "true" else "false";
      case Number(t) => group, text := 1, t;
      case String(s) => group, text := 4, s;
      case Array(_) => assert false;
      case Object(_) =>
        if HasString(item, "$ref") {
          group := 3;
          text :| Holds(item, "$ref", text);
        } else {
          group := 5;
          text :| Holds(item, "title", text);
        }
    }
  }

  lemma KeyedIffSortable(item: Json)
    requires WellFormed(item)
    ensures SortKey(item).Some? <==> Sortable(item)
  {
    hide WellFormed, StringUnder, HasString;
    if item.Object? {
      HasStringIff(item, "$ref");
      HasStringIff(item, "title");
    } else {
      assert !HasString(item, "$ref") && !HasString(item, "title") by { OnlyObjectsHold(item); }
    }
  }

  lemma OnlyObjectsHold(item: Json)
    ensures !item.Object? ==> !HasString(item, "$ref") && !HasString(item, "title")
  {
  }

  // Comparing keys

  lemma {:induction false} LessBehindPrefix(p: string, a: string, b: string)
    ensures Less(p + a, p + b) <==> Less(a, b)
  {
    if p == "" {
      assert p + a == a && p + b == b;
    } else {
      assert (p + a)[1..] == p[1..] + a && (p + b)[1..] == p[1..] + b;
      LessBehindPrefix(p[1..], a, b);
    }
  }

  lemma GroupsCompare(g: nat, s: string, h: nat, t: string)
    requires g < h <= 5
    ensures Less(GroupPrefix(g) + s, GroupPrefix(h) + t) && GroupPrefix(g) + s != GroupPrefix(h) + t
  {
    var a, b := GroupPrefix(g) + s, GroupPrefix(h) + t;
    assert a[0] == GroupPrefix(g)[0] && b[0] == GroupPrefix(h)[0];
    assert a[1..][0] == GroupPrefix(g)[1] && b[1..][0] == GroupPrefix(h)[1];
  }

  /** `a` has to stand before `b`: by group, then by text, then as serialised. */
  ghost predicate Before(a: Json, b: Json, serialise: Serialiser) {
    exists g, s, h, t :: StandsIn(a, g, s) && StandsIn(b, h, t) && StandsBefore(a, g, s, b, h, t, serialise)
  }

  ghost predicate StandsBefore(a: Json, g: nat, s: string, b: Json, h: nat, t: string, serialise: Serialiser) {
    || g < h
    || (g == h && (Ascending(s, t) || (s == t && Ascending(serialise(a), serialise(b)))))
  }

  lemma RanksCompare(a: Json, g: nat, s: string, b: Json, h: nat, t: string, serialise: Serialiser)
    requires WellFormed(a) && WellFormed(b) && StandsIn(a, g, s) && StandsIn(b, h, t)
    ensures RankLess(ItemRank(serialise)(a), ItemRank(serialise)(b)) <==> StandsBefore(a, g, s, b, h, t, serialise)
  {
    KeyOfGroup(a, g, s);
    KeyOfGroup(b, h, t);
    assert g <= 5 && h <= 5;
    LessIffAscending(serialise(a), serialise(b));
    hide WellFormed, SortKey, Less, GroupPrefix, StandsIn, Ascending;
    if g < h {
      GroupsCompare(g, s, h, t);
    } else if h < g {
      GroupsCompare(h, t, g, s);
      LessIsStrict(GroupPrefix(h) + t, GroupPrefix(g) + s);
    } else {
      LessBehindPrefix(GroupPrefix(g), s, t);
      LessIffAscending(s, t);
      SamePrefix(GroupPrefix(g), s, t);
    }
  }

  lemma SamePrefix(p: string, s: string, t: string)
    ensures p + s == p + t <==> s == t
  {
    assert (p + s)[|p|..] == s && (p + t)[|p|..] == t;
  }

  lemma RankLessIffBefore(a: Json, b: Json, serialise: Serialiser)
    requires WellFormed(a) && WellFormed(b) && Sortable(a) && Sortable(b)
    ensures RankLess(ItemRank(serialise)(a), ItemRank(serialise)(b)) <==> Before(a, b, serialise)
  {
    hide WellFormed, Sortable, StandsIn, StandsBefore, ItemRank, RankLess;
    var g, s := GroupOf(a);
    var h, t := GroupOf(b);
    RanksCompare(a, g, s, b, h, t, serialise);
    if Before(a, b, serialise) {
      var g', s', h', t' :| StandsIn(a, g', s') && StandsIn(b, h', t') && StandsBefore(a, g', s', b, h', t', serialise);
      RanksCompare(a, g', s', b, h', t', serialise);
    }
  }

  // What the canonical form is

  lemma {:induction false} CanonicalIsWellFormed(value: Json, serialise: Serialiser)
    requires WellFormed(value)
    ensures WellFormed(Canonical(value, serialise))
  {
    match value {
      case Array(items) =>
        CanonicalItemsWellFormed(items, serialise);
        hide SortKey, SortBy, WellFormed;
        var cs := CanonicalItems(items, serialise);
        KeyedAfterSorting(cs, serialise);
        RearrangedWellFormed(cs, SortedItems(cs, serialise));
      case Object(members) =>
        var cs := CanonicalMembers(members, serialise);
        forall m | m in cs ensures WellFormed(m.value) {
          var i :| 0 <= i < |cs| && cs[i] == m;
          CanonicalIsWellFormed(members[i].value, serialise);
        }
        CanonicalMembersUnique(members, serialise);
        SortByKeepsContents(cs, MemberRank());
        hide SortBy, WellFormed, Canonical, UniqueKeys;
        MembersRearrangedWellFormed(cs, SortBy(cs, MemberRank()));
        assert Canonical(value, serialise) == Object(SortBy(cs, MemberRank())) by { CanonicalObjectIs(members, serialise); }
      case _ =>
    }
  }

  lemma CanonicalObjectIs(members: seq<Member>, serialise: Serialiser)
    ensures Canonical(Object(members), serialise) == Object(SortBy(CanonicalMembers(members, serialise), MemberRank()))
  {
  }

  lemma CanonicalItemsWellFormed(items: seq<Json>, serialise: Serialiser)
    requires WellFormed(Array(items))
    ensures forall item :: item in CanonicalItems(items, serialise) ==> WellFormed(item)
  {
    var cs := CanonicalItems(items, serialise);
    forall item | item in cs ensures WellFormed(item) {
      var i :| 0 <= i < |cs| && cs[i] == item;
      CanonicalIsWellFormed(items[i], serialise);
    }
  }

  lemma RearrangedWellFormed(cs: seq<Json>, out: seq<Json>)
    requires multiset(out) == multiset(cs) && forall item :: item in cs ==> WellFormed(item)
    ensures WellFormed(Array(out))
  {
    forall item | item in out ensures WellFormed(item) {
      assert item in multiset(out);
    }
  }

  lemma MembersRearrangedWellFormed(cs: seq<Member>, out: seq<Member>)
    requires multiset(out) == multiset(cs) && UniqueKeys(cs) && forall m :: m in cs ==> WellFormed(m.value)
    ensures WellFormed(Object(out))
  {
    UniqueKeysPermuted(cs, out);
    forall m | m in out ensures WellFormed(m.value) {
      assert m in multiset(out);
    }
  }

  /** The same values, each of them canonical, in any order. */
  ghost predicate IsRearranged(items: seq<Json>, out: seq<Json>, serialise: Serialiser) {
    exists inOrder: seq<Json> ::
      && |inOrder| == |items|
      && (forall i :: 0 <= i < |items| ==> inOrder[i] == Canonical(items[i], serialise))
      && multiset(out) == multiset(inOrder)
  }

  /** An array all of whose elements can be sorted has them, made canonical, in ascending order; any other
      has them where they were. */
  lemma CanonicalArray(items: seq<Json>, serialise: Serialiser)
    requires WellFormed(Array(items))
    ensures Canonical(Array(items), serialise).Array?
    ensures var out := Canonical(Array(items), serialise).items;
            if forall item :: item in items ==> Sortable(item) then
              && IsRearranged(items, out, serialise)
              && (forall item :: item in out ==> Sortable(item))
              && forall i, j :: 0 <= i < j < |out| ==> !Before(out[j], out[i], serialise)
            else
              |out| == |items| && forall i :: 0 <= i < |items| ==> out[i] == Canonical(items[i], serialise)
  {
    var cs := CanonicalItems(items, serialise);
    var out := SortedItems(cs, serialise);
    KeyedIffCanonicalKeyed(items, serialise);
    forall item | item in items ensures SortKey(item).Some? <==> Sortable(item) {
      assert WellFormed(item);
      KeyedIffSortable(item);
    }
    if AllKeyed(items) {
      CanonicalItemsWellFormed(items, serialise);
      SortedItemsAscend(cs, serialise);
    }
  }

  lemma SortedItemsAscend(cs: seq<Json>, serialise: Serialiser)
    requires AllKeyed(cs) && forall item :: item in cs ==> WellFormed(item)
    ensures var out := SortedItems(cs, serialise);
            && multiset(out) == multiset(cs)
            && (forall item :: item in out ==> Sortable(item))
            && forall i, j :: 0 <= i < j < |out| ==> !Before(out[j], out[i], serialise)
  {
    hide WellFormed, SortKey, SortBy, Sortable, Before, ItemRank, RankLess;
    var out := SortedItems(cs, serialise);
    KeyedAfterSorting(cs, serialise);
    SortByIsSorted(cs, ItemRank(serialise));
    forall item | item in out ensures WellFormed(item) && Sortable(item) {
      assert item in multiset(out);
      KeyedIffSortable(item);
    }
    forall i, j | 0 <= i < j < |out| ensures !Before(out[j], out[i], serialise) {
      RankLessIffBefore(out[j], out[i], serialise);
    }
  }

  /** An object has its members, their values made canonical, in ascending order of their keys. */
  lemma CanonicalObject(members: seq<Member>, serialise: Serialiser)
    requires WellFormed(Object(members))
    ensures Canonical(Object(members), serialise).Object?
    ensures var out := Canonical(Object(members), serialise).members;
            && (forall i, j :: 0 <= i < j < |out| ==> Ascending(out[i].key, out[j].key))
            && |out| == |members|
            && forall m :: m in members ==> Member(m.key, Canonical(m.value, serialise)) in out
  {
    var cs := CanonicalMembers(members, serialise);
    CanonicalObjectIs(members, serialise);
    CanonicalMembersUnique(members, serialise);
    hide WellFormed, SortBy, Canonical;
    var out := SortBy(cs, MemberRank());
    SortByKeepsContents(cs, MemberRank());
    SortByIsSorted(cs, MemberRank());
    UniqueKeysPermuted(cs, out);
    assert |out| == |multiset(out)| == |multiset(cs)| == |cs|;
    forall m | m in members ensures Member(m.key, Canonical(m.value, serialise)) in out {
      var i :| 0 <= i < |members| && members[i] == m;
      assert cs[i] in multiset(cs) && cs[i] in multiset(out);
    }
    forall i, j | 0 <= i < j < |out| ensures Ascending(out[i].key, out[j].key) {
      assert !RankLess(MemberRank()(out[j]), MemberRank()(out[i]));
      LessIsTotal(out[i].key, out[j].key);
      LessIffAscending(out[i].key, out[j].key);
    }
  }

  /** Anything else is its own canonical form. */
  lemma CanonicalScalar(value: Json, serialise: Serialiser)
    requires !value.Array? && !value.Object?
    ensures Canonical(value, serialise) == value
  {
  }

  /** An array of strings, such as the required properties of a schema, is sorted. */
  lemma CanonicalStrings(strings: seq<Json>, serialise: Serialiser)
    requires forall item :: item in strings ==> item.String?
    ensures Canonical(Array(strings), serialise).Array?
    ensures var out := Canonical(Array(strings), serialise).items;
            && multiset(out) == multiset(strings)
            && (forall item :: item in out ==> item.String?)
            && forall i, j :: 0 <= i < j < |out| ==> !Ascending(out[j].s, out[i].s)
  {
    assert WellFormed(Array(strings));
    hide *;
    forall item | item in strings ensures Sortable(item) {
      StringIsSortable(item);
    }
    CanonicalArray(strings, serialise);
    var out := Canonical(Array(strings), serialise).items;
    StringsRearranged(strings, out, serialise);
    forall i, j | 0 <= i < j < |out| ensures !Ascending(out[j].s, out[i].s) {
      StringsBefore(out[j].s, out[i].s, serialise);
    }
  }

  lemma StringIsSortable(item: Json)
    requires item.String?
    ensures Sortable(item)
  {
    hide HasString;
  }

  lemma StringsRearranged(strings: seq<Json>, out: seq<Json>, serialise: Serialiser)
    requires forall item :: item in strings ==> item.String?
    requires IsRearranged(strings, out, serialise)
    ensures multiset(out) == multiset(strings)
    ensures forall i :: 0 <= i < |out| ==> out[i].String?
    ensures forall item :: item in out ==> item.String?
  {
    var inOrder :| |inOrder| == |strings| && multiset(out) == multiset(inOrder)
                   && forall i :: 0 <= i < |strings| ==> inOrder[i] == Canonical(strings[i], serialise);
    forall i | 0 <= i < |strings| ensures inOrder[i] == strings[i] {
      assert strings[i] in strings;
      CanonicalScalar(strings[i], serialise);
    }
    hide Canonical;
    assert inOrder == strings;
    forall item | item in out ensures item.String? {
      assert item in multiset(strings);
    }
  }

  lemma StringsBefore(a: string, b: string, serialise: Serialiser)
    ensures Ascending(a, b) ==> Before(String(a), String(b), serialise)
  {
    hide Ascending;
    assert StandsIn(String(a), 4, a) && StandsIn(String(b), 4, b);
    if Ascending(a, b) {
      assert StandsBefore(String(a), 4, a, String(b), 4, b, serialise);
    }
  }
}
