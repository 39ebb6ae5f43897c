/** Rankpoint.setupConfig, the part that turns the `groups` section of
    config.yml into the rank table handed to GroupConfig: the numeric keys
    are parsed and sorted ascending, each key's sub-section is looked up
    again by its printed number, groups the permission backend does not
    know are dropped, and the accepted groups' costs are accumulated into
    running thresholds. */
module Rankpoint {
  import opened Wrappers
  import opened JavaInt

  /** One sub-section under `groups`: its `group` string (None when absent,
      which makes toLowerCase throw) and its `point` cost as getInt reads it. */
  datatype GroupSection = GroupSection(group: Option<string>, point: Int32)

  /** A key of the `groups` section and what it holds: a sub-section, or
      some other value, for which getConfigurationSection yields null. */
  datatype GroupsEntry = GroupsEntry(key: string, value: Option<GroupSection>)

  /** The three arguments of `new GroupConfig(...)`. */
  datatype GroupTable = GroupTable(
    groupNames: seq<string>,
    pointConditions: seq<Int32>,
    displayGroupNames: map<string, string>)

  /** The exceptions setupConfig lets escape. */
  datatype Failure = NumberFormat | NullPointer

  /** setupConfig's outcome: it returns true having built a table, returns
      false, or throws. */
  datatype SetupResult = Configured(table: GroupTable) | NotConfigured | Crashed(cause: Failure)

  /** The keys of a section are a set: no key occurs twice. */
  predicate DistinctKeys(entries: seq<GroupsEntry>) {
    forall i, j :: 0 <= i < j < |entries| ==> entries[i].key != entries[j].key
  }

  // ---------------------------------------------------------------------
  // The stream: getKeys → parseInt → sorted → valueOf → getConfigurationSection → nonNull

  /** mapToInt(Integer::parseInt): None stands for the NumberFormatException
      of the first key that is not a 32-bit decimal number. */
  function ParseKeys(entries: seq<GroupsEntry>): (r: Option<seq<Int32>>)
    ensures r.Some? <==> forall i :: 0 <= i < |entries| ==> ParseInt(entries[i].key).Some?
    ensures r.Some? ==> |r.value| == |entries|
    ensures r.Some? ==> forall i :: 0 <= i < |entries| ==> r.value[i] == ParseInt(entries[i].key).value
  {
    if entries == [] then Some([])
    else
      match ParseInt(entries[0].key)
      case None => None
      case Some(v) =>
        match ParseKeys(entries[1..])
        case None => None
        case Some(vs) => Some([v] + vs)
  }

  predicate Ascending(xs: seq<int>) {
    forall i, j :: 0 <= i < j < |xs| ==> xs[i] <= xs[j]
  }

  /** x placed into the ascending list xs before its first larger element. */
  function Insert(x: int, xs: seq<int>): (r: seq<int>)
    requires Ascending(xs)
    ensures Ascending(r)
    ensures multiset(r) == multiset(xs) + multiset{x}
    ensures r[0] == x || (xs != [] && r[0] == xs[0])
  {
    if xs == [] || x <= xs[0] then [x] + xs
    else
      var tail := Insert(x, xs[1..]);
      assert xs == [xs[0]] + xs[1..];
      assert forall k :: 0 <= k < |tail| ==> xs[0] <= tail[0] <= tail[k];
      [xs[0]] + tail
  }

  /** IntStream.sorted(): the same numbers, ascending. */
  function SortAscending(xs: seq<int>): (r: seq<int>)
    ensures Ascending(r)
    ensures multiset(r) == multiset(xs)
  {
    if xs == [] then []
    else
      assert xs == [xs[0]] + xs[1..];
      Insert(xs[0], SortAscending(xs[1..]))
  }

  /** groups.getConfigurationSection(path): the sub-section stored under
      exactly that key, or None when the key is missing or holds no section. */
  function Lookup(entries: seq<GroupsEntry>, path: string): (r: Option<GroupSection>)
    ensures r.Some? ==> exists i :: 0 <= i < |entries| && entries[i].key == path && entries[i].value == r
    ensures (forall i :: 0 <= i < |entries| ==> entries[i].key != path) ==> r.None?
  {
    if entries == [] then None
    else if entries[0].key == path then entries[0].value
    else
      var r := Lookup(entries[1..], path);
      assert r.Some? ==> exists i :: 0 <= i < |entries[1..]| && entries[1..][i].key == path && entries[1..][i].value == r;
      assert (forall i :: 0 <= i < |entries| ==> entries[i].key != path) ==>
        forall i :: 0 <= i < |entries[1..]| ==> entries[1..][i].key != path;
      r
  }

  /** For each sorted number, the section found under its printed form;
      the numbers whose printed form holds no section are skipped. */
  function SectionsAt(entries: seq<GroupsEntry>, sorted: seq<int>): (r: seq<GroupSection>)
    ensures |r| <= |sorted|
  {
    if sorted == [] then []
    else
      var rest := SectionsAt(entries, sorted[1..]);
      var found := Lookup(entries, ToString(sorted[0]));
      if found.Some? then [found.value] + rest else rest
  }

  /** The sections the forEach visits, in order, or the NumberFormatException. */
  function VisitedSections(entries: seq<GroupsEntry>): (r: Option<seq<GroupSection>>)
    ensures r.None? <==> exists i :: 0 <= i < |entries| && ParseInt(entries[i].key).None?
    ensures r.Some? ==> |r.value| <= |entries|
  {
    match ParseKeys(entries)
    case None => None
    case Some(keys) =>
      var sorted := SortAscending(keys);
      assert |sorted| == |multiset(sorted)| == |multiset(keys)| == |keys|;
      Some(SectionsAt(entries, sorted))
  }

  // ---------------------------------------------------------------------
  // The forEach body, specified over the accepted sections

  /** String.toLowerCase on the ASCII letters. */
  function LowerChar(c: char): char {
    if 'A' <= c <= 'Z' then (c as int - 'A' as int + 'a' as int) as char else c
  }

  function Lower(s: string): (r: string)
    ensures |r| == |s|
    ensures forall k :: 0 <= k < |s| ==> r[k] == LowerChar(s[k])
  {
    seq(|s|, k requires 0 <= k < |s| => LowerChar(s[k]))
  }

  predicate IsLower(s: string) {
    forall k :: 0 <= k < |s| ==> !('A' <= s[k] <= 'Z')
  }

  /** allGroups.contains(groupName) for a section whose group is present. */
  predicate IsAccepted(s: GroupSection, allGroups: seq<string>) {
    s.group.Some? && Lower(s.group.value) in allGroups
  }

  /** The sections, in order, that add a rank. */
  function Accepted(sections: seq<GroupSection>, allGroups: seq<string>): (r: seq<GroupSection>)
    ensures |r| <= |sections|
  {
    if sections == [] then []
    else
      var n := |sections| - 1;
      Accepted(sections[..n], allGroups) + (if IsAccepted(sections[n], allGroups) then [sections[n]] else [])
  }

  predicate AllNamed(acc: seq<GroupSection>) {
    forall k :: 0 <= k < |acc| ==> acc[k].group.Some?
  }

  /** groupNames: each accepted group's name, lower-cased. */
  function Names(acc: seq<GroupSection>): seq<string>
    requires AllNamed(acc)
  {
    if acc == [] then [] else Names(acc[..|acc| - 1]) + [Lower(acc[|acc| - 1].group.value)]
  }

  /** The exact total of the costs. */
  function Sum(acc: seq<GroupSection>): int {
    if acc == [] then 0 else Sum(acc[..|acc| - 1]) + acc[|acc| - 1].point
  }

  /** pointConditions: latest[0] after each accepted section, an `int` that wraps. */
  function Thresholds(acc: seq<GroupSection>): seq<Int32> {
    if acc == [] then [] else Thresholds(acc[..|acc| - 1]) + [Wrap(Sum(acc))]
  }

  /** displayGroupNamesMap: each lower-cased name to the name as written;
      a later section with the same lower-cased name overwrites. */
  function DisplayNames(acc: seq<GroupSection>): map<string, string>
    requires AllNamed(acc)
  {
    if acc == [] then map[]
    else
      var s := acc[|acc| - 1].group.value;
      DisplayNames(acc[..|acc| - 1])[Lower(s) := s]
  }

  /** The table built from the accepted sections. */
  function TableOf(acc: seq<GroupSection>): GroupTable
    requires AllNamed(acc)
  {
    GroupTable(Names(acc), Thresholds(acc), DisplayNames(acc))
  }

  lemma {:induction false} AcceptedAreAccepted(sections: seq<GroupSection>, allGroups: seq<string>)
    ensures forall k :: 0 <= k < |Accepted(sections, allGroups)| ==>
      IsAccepted(Accepted(sections, allGroups)[k], allGroups)
  {
    if sections != [] {
      AcceptedAreAccepted(sections[..|sections| - 1], allGroups);
    }
  }

  /** Visiting one more section extends the accepted list by it, or not at all. */
  lemma AcceptedStep(sections: seq<GroupSection>, i: nat, allGroups: seq<string>)
    requires i < |sections|
    ensures Accepted(sections[..i + 1], allGroups)
      == Accepted(sections[..i], allGroups) + (if IsAccepted(sections[i], allGroups) then [sections[i]] else [])
  {
    assert sections[..i + 1][..i] == sections[..i];
  }

  /** What accepting one more section adds to each part of the table. */
  lemma TableStep(acc: seq<GroupSection>, s: GroupSection)
    requires AllNamed(acc) && s.group.Some?
    ensures AllNamed(acc + [s])
    ensures Names(acc + [s]) == Names(acc) + [Lower(s.group.value)]
    ensures Sum(acc + [s]) == Sum(acc) + s.point
    ensures Thresholds(acc + [s]) == Thresholds(acc) + [Wrap(Sum(acc) + s.point)]
    ensures DisplayNames(acc + [s]) == DisplayNames(acc)[Lower(s.group.value) := s.group.value]
  {
    assert (acc + [s])[..|acc|] == acc;
  }

  /** The accepting branch of the forEach body: append the name, record
      the name as written, add the cost to latest[0] and append the total. */
  method AcceptSection(groupNames: seq<string>, pointConditions: seq<Int32>,
                       displayGroupNamesMap: map<string, string>, latest: Int32,
                       ghost acc: seq<GroupSection>, section: GroupSection)
    returns (groupNames': seq<string>, pointConditions': seq<Int32>,
             displayGroupNamesMap': map<string, string>, latest': Int32)
    requires AllNamed(acc) && section.group.Some?
    requires groupNames == Names(acc) && pointConditions == Thresholds(acc)
    requires displayGroupNamesMap == DisplayNames(acc) && latest == Wrap(Sum(acc))
    ensures AllNamed(acc + [section])
    ensures groupNames' == Names(acc + [section]) && pointConditions' == Thresholds(acc + [section])
    ensures displayGroupNamesMap' == DisplayNames(acc + [section]) && latest' == Wrap(Sum(acc + [section]))
  {
    TableStep(acc, section);
    WrapAdd(Sum(acc), section.point);
    var groupName := Lower(section.group.value);
    groupNames' := groupNames + [groupName];
    displayGroupNamesMap' := displayGroupNamesMap[groupName := section.group.value];
    latest' := Wrap(latest + section.point);
    pointConditions' := pointConditions + [latest'];
  }

  /** The forEach over the visited sections. A section without a `group`
      throws the NullPointerException; the lists built so far are then lost. */
  method BuildGroupTable(sections: seq<GroupSection>, allGroups: seq<string>) returns (r: Option<GroupTable>)
    ensures r.None? <==> exists k :: 0 <= k < |sections| && sections[k].group.None?
    ensures r.Some? ==> AllNamed(Accepted(sections, allGroups)) && r.value == TableOf(Accepted(sections, allGroups))
  {
    var groupNames: seq<string> := [];
    var pointConditions: seq<Int32> := [];
    var displayGroupNamesMap: map<string, string> := map[];
    var latest: Int32 := 0;
    ghost var acc: seq<GroupSection> := [];
    for i := 0 to |sections|
      invariant forall k :: 0 <= k < i ==> sections[k].group.Some?
      invariant acc == Accepted(sections[..i], allGroups)
      invariant AllNamed(acc)
      invariant groupNames == Names(acc)
      invariant pointConditions == Thresholds(acc)
      invariant displayGroupNamesMap == DisplayNames(acc)
      invariant latest == Wrap(Sum(acc))
    {
      var section := sections[i];
      AcceptedStep(sections, i, allGroups);
      if section.group.None? {
        return None;
      }
      if Lower(section.group.value) in allGroups {
        groupNames, pointConditions, displayGroupNamesMap, latest :=
          AcceptSection(groupNames, pointConditions, displayGroupNamesMap, latest, acc, section);
        acc := acc + [section];
      }
    }
    assert sections[..|sections|] == sections;
    return Some(GroupTable(groupNames, pointConditions, displayGroupNamesMap));
  }

  /** setupConfig from the lookup of `groups` on. groups is None when config.yml
      has no `groups` section; allGroups is perms.getGroups(). */
  method SetupConfig(groups: Option<seq<GroupsEntry>>, allGroups: seq<string>) returns (r: SetupResult)
    ensures groups.None? ==> r == NotConfigured
    ensures groups.Some? && VisitedSections(groups.value).None? ==> r == Crashed(NumberFormat)
    ensures groups.Some? && VisitedSections(groups.value).Some? ==>
      var sections := VisitedSections(groups.value).value;
      var acc := Accepted(sections, allGroups);
      && ((exists k :: 0 <= k < |sections| && sections[k].group.None?) <==> r == Crashed(NullPointer))
      && (r.Configured? ==> AllNamed(acc) && r.table == TableOf(acc))
      && (r.Configured? <==> |acc| > 0 && forall k :: 0 <= k < |sections| ==> sections[k].group.Some?)
      && (r == NotConfigured <==> |acc| == 0 && forall k :: 0 <= k < |sections| ==> sections[k].group.Some?)
  {
    if groups.None? {
      return NotConfigured;
    }
    var visited := VisitedSections(groups.value);
    if visited.None? {
      return Crashed(NumberFormat);
    }
    var built := BuildGroupTable(visited.value, allGroups);
    if built.None? {
      return Crashed(NullPointer);
    }
    var table := built.value;
    LengthsAgree(Accepted(visited.value, allGroups));
    if |table.groupNames| == 0 || |table.pointConditions| == 0 {
      return NotConfigured;
    }
    return Configured(table);
  }

  // ---------------------------------------------------------------------
  // Properties of the stream and of the table

  /** The numbers, among the sorted ones, whose printed form holds a section. */
  function FoundKeys(entries: seq<GroupsEntry>, sorted: seq<int>): seq<int> {
    if sorted == [] then []
    else
      var rest := FoundKeys(entries, sorted[1..]);
      if Lookup(entries, ToString(sorted[0])).Some? then [sorted[0]] + rest else rest
  }

  /** The section s is what getConfigurationSection finds under the printed form of v. */
  predicate FoundUnder(entries: seq<GroupsEntry>, v: int, s: GroupSection) {
    Lookup(entries, ToString(v)) == Some(s)
  }

  /** The k-th visited section is the one found under the k-th found key. */
  lemma {:induction false} FoundKeysLookup(entries: seq<GroupsEntry>, sorted: seq<int>)
    ensures |FoundKeys(entries, sorted)| == |SectionsAt(entries, sorted)|
    ensures forall k :: 0 <= k < |FoundKeys(entries, sorted)| ==>
      FoundUnder(entries, FoundKeys(entries, sorted)[k], SectionsAt(entries, sorted)[k])
  {
    if sorted != [] {
      FoundKeysLookup(entries, sorted[1..]);
      var keys, sections := FoundKeys(entries, sorted[1..]), SectionsAt(entries, sorted[1..]);
      var found := Lookup(entries, ToString(sorted[0]));
      if found.Some? {
        var keys', sections' := FoundKeys(entries, sorted), SectionsAt(entries, sorted);
        assert keys' == [sorted[0]] + keys && sections' == [found.value] + sections;
        assert keys'[1..] == keys && sections'[1..] == sections;
        FoundUnderCons(entries, keys', sections');
      }
    }
  }

  /** Pairing one more found key with its section keeps every pair found. */
  lemma FoundUnderCons(entries: seq<GroupsEntry>, keys: seq<int>, sections: seq<GroupSection>)
    requires |keys| == |sections| > 0 && FoundUnder(entries, keys[0], sections[0])
    requires forall k :: 0 <= k < |keys| - 1 ==> FoundUnder(entries, keys[1..][k], sections[1..][k])
    ensures forall k :: 0 <= k < |keys| ==> FoundUnder(entries, keys[k], sections[k])
  {
    forall k | 0 < k < |keys|
      ensures FoundUnder(entries, keys[k], sections[k])
    {
      assert keys[1..][k - 1] == keys[k] && sections[1..][k - 1] == sections[k];
    }
  }

  /** A bound on all the sorted numbers bounds the found ones. */
  lemma {:induction false} FoundKeysBounded(entries: seq<GroupsEntry>, sorted: seq<int>, b: int)
    requires forall k :: 0 <= k < |sorted| ==> b <= sorted[k]
    ensures forall k :: 0 <= k < |FoundKeys(entries, sorted)| ==> b <= FoundKeys(entries, sorted)[k]
  {
    if sorted != [] {
      FoundKeysBounded(entries, sorted[1..], b);
    }
  }

  /** Sections are visited in ascending numeric order of their keys. */
  lemma {:induction false} FoundKeysAscending(entries: seq<GroupsEntry>, sorted: seq<int>)
    requires Ascending(sorted)
    ensures Ascending(FoundKeys(entries, sorted))
  {
    if sorted != [] {
      FoundKeysAscending(entries, sorted[1..]);
      FoundKeysBounded(entries, sorted[1..], sorted[0]);
    }
  }

  /** Every parsed key is among the sorted ones visited, in ascending order. */
  lemma VisitedInAscendingOrder(entries: seq<GroupsEntry>)
    requires ParseKeys(entries).Some?
    ensures var sorted := SortAscending(ParseKeys(entries).value);
      && multiset(sorted) == multiset(ParseKeys(entries).value)
      && Ascending(FoundKeys(entries, sorted))
      && VisitedSections(entries) == Some(SectionsAt(entries, sorted))
      && |FoundKeys(entries, sorted)| == |VisitedSections(entries).value|
      && forall k :: 0 <= k < |FoundKeys(entries, sorted)| ==>
        FoundUnder(entries, FoundKeys(entries, sorted)[k], VisitedSections(entries).value[k])
  {
    var sorted := SortAscending(ParseKeys(entries).value);
    FoundKeysAscending(entries, sorted);
    FoundKeysLookup(entries, sorted);
  }

  /** The section under a key that is the printed form of its own number is
      visited; a key such as "01" or "+1", which prints differently, is not
      found again under its own name. */
  lemma {:induction false} CanonicalKeyVisited(entries: seq<GroupsEntry>, sorted: seq<int>, i: nat)
    requires i < |entries| && entries[i].value.Some?
    requires ParseInt(entries[i].key).Some? && ToString(ParseInt(entries[i].key).value) == entries[i].key
    requires DistinctKeys(entries)
    requires ParseInt(entries[i].key).value in sorted
    ensures entries[i].value.value in SectionsAt(entries, sorted)
  {
    var v := ParseInt(entries[i].key).value;
    if sorted[0] == v {
      LookupFinds(entries, i);
    } else {
      CanonicalKeyVisited(entries, sorted[1..], i);
    }
  }

  /** With distinct keys, looking up a present key finds its own section. */
  lemma {:induction false} LookupFinds(entries: seq<GroupsEntry>, i: nat)
    requires i < |entries| && entries[i].value.Some?
    requires DistinctKeys(entries)
    ensures Lookup(entries, entries[i].key) == entries[i].value
  {
    if i > 0 {
      assert DistinctKeys(entries[1..]) by {
        forall a, b | 0 <= a < b < |entries[1..]|
          ensures entries[1..][a].key != entries[1..][b].key
        {
          assert entries[1..][a] == entries[a + 1] && entries[1..][b] == entries[b + 1];
        }
      }
      assert entries[0].key != entries[i].key;
      LookupFinds(entries[1..], i - 1);
      assert entries[1..][i - 1] == entries[i];
    }
  }

  /** A key that is not the printed form of a number is not parsed as one
      that prints back to it, so it is never visited under its own name. */
  lemma NonCanonicalKey(k: string)
    requires ParseInt(k).Some? && ToString(ParseInt(k).value) != k
    ensures forall v :: ToString(v) != k
  {
    forall v
      ensures ToString(v) != k
    {
      if ToString(v) == k {
        ParseIntOfToString(v);
      }
    }
  }

  /** A group that is not in the permission list changes nothing in the table. */
  lemma UnknownGroupIgnored(sections: seq<GroupSection>, s: GroupSection, allGroups: seq<string>)
    requires s.group.Some? && Lower(s.group.value) !in allGroups
    ensures Accepted(sections + [s], allGroups) == Accepted(sections, allGroups)
  {
    assert (sections + [s])[..|sections|] == sections;
  }

  /** groupNames and pointConditions have one entry per accepted group. */
  lemma {:induction false} LengthsAgree(acc: seq<GroupSection>)
    requires AllNamed(acc)
    ensures |Names(acc)| == |Thresholds(acc)| == |acc|
  {
    if acc != [] {
      LengthsAgree(acc[..|acc| - 1]);
    }
  }

  /** pointConditions[k] is the total cost of the first k+1 accepted groups,
      as an `int`. */
  lemma {:induction false} ThresholdIsPrefixSum(acc: seq<GroupSection>, k: nat)
    requires k < |acc|
    ensures |Thresholds(acc)| == |acc|
    ensures Thresholds(acc)[k] == Wrap(Sum(acc[..k + 1]))
  {
    var n := |acc| - 1;
    if k < n {
      ThresholdIsPrefixSum(acc[..n], k);
      assert acc[..n][..k + 1] == acc[..k + 1];
    } else {
      assert acc[..k + 1] == acc;
      if n > 0 {
        ThresholdIsPrefixSum(acc[..n], 0);
      }
    }
  }

  /** Adding a non-negative cost never lowers the total. */
  lemma {:induction false} SumMonotone(acc: seq<GroupSection>, i: nat, j: nat)
    requires i <= j <= |acc|
    requires forall k :: 0 <= k < |acc| ==> acc[k].point >= 0
    ensures Sum(acc[..i]) <= Sum(acc[..j])
  {
    if i < j {
      SumMonotone(acc, i, j - 1);
      assert acc[..j][..j - 1] == acc[..j - 1];
    }
  }

  /** With non-negative costs whose total fits an `int`, the thresholds are
      the exact running totals and never decrease. */
  lemma ThresholdsAscend(acc: seq<GroupSection>)
    requires forall k :: 0 <= k < |acc| ==> acc[k].point >= 0
    requires Sum(acc) <= MAX_VALUE
    ensures |Thresholds(acc)| == |acc|
    ensures forall k :: 0 <= k < |acc| ==> Thresholds(acc)[k] == Sum(acc[..k + 1])
    ensures Ascending(Thresholds(acc))
  {
    forall k | 0 <= k < |acc|
      ensures Thresholds(acc)[k] == Sum(acc[..k + 1])
    {
      ThresholdIsPrefixSum(acc, k);
      SumMonotone(acc, 0, k + 1);
      SumMonotone(acc, k + 1, |acc|);
      assert acc[..0] == [] && acc[..|acc|] == acc;
    }
    if acc != [] {
      ThresholdIsPrefixSum(acc, 0);
    }
    forall i, j | 0 <= i < j < |acc|
      ensures Thresholds(acc)[i] <= Thresholds(acc)[j]
    {
      SumMonotone(acc, i + 1, j + 1);
    }
  }

  /** Without the fit the running `int` total wraps: costs 2147483647 and 1
      give the thresholds 2147483647 and -2147483648. */
  lemma ThresholdsCanFall()
    ensures Thresholds([GroupSection(Some("a"), MAX_VALUE), GroupSection(Some("b"), 1)])
      == [MAX_VALUE, MIN_VALUE]
  {
    var acc := [GroupSection(Some("a"), MAX_VALUE), GroupSection(Some("b"), 1)];
    var first := acc[..1];
    assert first[..0] == [];
    assert Sum(first) == MAX_VALUE && Thresholds(first) == [MAX_VALUE];
    assert Sum(acc) == MAX_VALUE + 1;
    WrapUnique(MAX_VALUE + 1, MIN_VALUE);
  }

  lemma LowerIsLower(s: string)
    ensures IsLower(Lower(s))
  {
  }

  /** The stored names are lower-case, and the display map sends exactly
      the stored names to a name as written that lower-cases to them. */
  lemma {:induction false} DisplayNamesAuthored(acc: seq<GroupSection>)
    requires AllNamed(acc)
    ensures forall k :: 0 <= k < |Names(acc)| ==> IsLower(Names(acc)[k])
    ensures DisplayNames(acc).Keys == set n | n in Names(acc)
    ensures forall n :: n in DisplayNames(acc) ==> Lower(DisplayNames(acc)[n]) == n
  {
    if acc != [] {
      var prefix := acc[..|acc| - 1];
      var s := acc[|acc| - 1].group.value;
      DisplayNamesAuthored(prefix);
      LowerIsLower(s);
      assert Names(acc) == Names(prefix) + [Lower(s)];
      assert (set n | n in Names(acc)) == (set n | n in Names(prefix)) + {Lower(s)};
    }
  }

  /** The display name of a group is the one written in the last accepted
      section with that lower-cased name. */
  lemma {:induction false} DisplayNameIsLastWritten(acc: seq<GroupSection>, k: nat)
    requires AllNamed(acc) && k < |acc|
    requires forall j :: k < j < |acc| ==> Lower(acc[j].group.value) != Lower(acc[k].group.value)
    ensures Lower(acc[k].group.value) in DisplayNames(acc)
    ensures DisplayNames(acc)[Lower(acc[k].group.value)] == acc[k].group.value
  {
    var n := |acc| - 1;
    if k < n {
      DisplayNameIsLastWritten(acc[..n], k);
    }
  }
}
