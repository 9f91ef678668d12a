/**
 * The machine directory: linodes and their IP records as decoded from the
 * provider's API, grouped by display group, with each linode's IP list
 * sorted public-first and each group sorted by label.
 *
 * Go's `Linodes` is a map from display group to a slice of linode pointers
 * and `LinodeIps` a map from linode id to a slice of IP-record pointers;
 * here both are maps to sequences of values. Ranging over a Go map visits
 * its keys in an unspecified order, so functions that range over one take
 * that order as an argument (`order`, one of the map's key orders).
 */
module Api {
  import opened Text
  import opened Grouping
  import opened Sorting

  datatype LinodeIp = LinodeIp(linodeId: int, public: int, ip: string)

  datatype Linode = Linode(
    id: int,
    status: int,
    name: string,        // the linode's label
    displayGroup: string,
    ram: int,
    ips: seq<LinodeIp>)

  /** Display group -> linodes of that group. */
  type Linodes = map<string, seq<Linode>>

  /** Linode id -> IP records of that linode. */
  type LinodeIps = map<int, seq<LinodeIp>>

  // ---------------------------------------------------------------------
  // Queries on one linode
  // ---------------------------------------------------------------------

  /** `i` is the first position in `ips` whose `public` flag is `flag`. */
  predicate FirstWith(ips: seq<LinodeIp>, flag: int, i: int) {
    0 <= i < |ips| && ips[i].public == flag && forall j :: 0 <= j < i ==> ips[j].public != flag
  }

  /** The address of the first record flagged `flag`, or "" when there is none. */
  function FirstIp(ips: seq<LinodeIp>, flag: int): (ip: string)
    ensures forall i :: FirstWith(ips, flag, i) ==> ip == ips[i].ip
    ensures (forall i :: 0 <= i < |ips| ==> ips[i].public != flag) ==> ip == ""
  {
    if |ips| == 0 then ""
    else if ips[0].public == flag then ips[0].ip
    else
      assert forall i :: FirstWith(ips, flag, i) ==> FirstWith(ips[1..], flag, i - 1);
      FirstIp(ips[1..], flag)
  }

  /** The first public (flag 1) address, or "". */
  function PublicIp(l: Linode): (ip: string)
    ensures forall i :: FirstWith(l.ips, 1, i) ==> ip == l.ips[i].ip
    ensures (forall i :: 0 <= i < |l.ips| ==> l.ips[i].public != 1) ==> ip == ""
  {
    FirstIp(l.ips, 1)
  }

  /** The first private (flag 0) address, or "". Records with any other flag are skipped. */
  function PrivateIp(l: Linode): (ip: string)
    ensures forall i :: FirstWith(l.ips, 0, i) ==> ip == l.ips[i].ip
    ensures (forall i :: 0 <= i < |l.ips| ==> l.ips[i].public != 0) ==> ip == ""
  {
    FirstIp(l.ips, 0)
  }

  predicate IsRunning(l: Linode) {
    l.status == 1
  }

  // ---------------------------------------------------------------------
  // Ids and Size, over one key order of the map
  // ---------------------------------------------------------------------

  predicate InMap(linodes: Linodes, order: seq<string>) {
    forall g :: g in order ==> g in linodes
  }

  /** The number of linodes in the groups named by `order`. */
  function Size(linodes: Linodes, order: seq<string>): (n: nat)
    requires InMap(linodes, order)
    ensures forall g :: g in order ==> |linodes[g]| <= n
  {
    if |order| == 0 then 0
    else
      var init := order[..|order| - 1];
      assert forall g :: g in order ==> g in init || g == order[|order| - 1];
      assert forall g :: g in init ==> g in order;
      Size(linodes, init) + |linodes[order[|order| - 1]]|
  }

  function IdsOf(group: seq<Linode>): (ids: seq<int>)
    ensures |ids| == |group|
    ensures forall k :: 0 <= k < |group| ==> ids[k] == group[k].id
  {
    seq(|group|, k requires 0 <= k < |group| => group[k].id)
  }

  /** The ids of all linodes, group after group: one id per linode. */
  function Ids(linodes: Linodes, order: seq<string>): (ids: seq<int>)
    requires InMap(linodes, order)
    ensures |ids| == Size(linodes, order)
    ensures forall id :: id in ids <==> exists g, l :: g in order && l in linodes[g] && l.id == id
  {
    if |order| == 0 then []
    else
      var init, last := order[..|order| - 1], order[|order| - 1];
      var ids := Ids(linodes, init) + IdsOf(linodes[last]);
      assert forall g :: g in order ==> g in init || g == last;
      assert forall l :: l in linodes[last] ==> l.id in IdsOf(linodes[last]);
      ids
  }

  lemma SizeSnoc(linodes: Linodes, order: seq<string>, g: string)
    requires InMap(linodes, order) && g in linodes
    ensures InMap(linodes, order + [g])
    ensures Size(linodes, order + [g]) == Size(linodes, order) + |linodes[g]|
  {
    assert (order + [g])[..|order|] == order;
  }

  /** Removing one group from the order lowers the size by that group's size. */
  lemma {:induction false} SizeRemove(linodes: Linodes, order: seq<string>, p: nat)
    requires InMap(linodes, order) && p < |order|
    ensures Size(linodes, order) == Size(linodes, order[..p] + order[p + 1..]) + |linodes[order[p]]|
  {
    var n := |order|;
    var init := order[..n - 1];
    var last := order[n - 1];
    assert order == init + [last];
    assert InMap(linodes, init);
    SizeSnoc(linodes, init, last);
    if p < n - 1 {
      var restInit := init[..p] + init[p + 1..];
      assert InMap(linodes, restInit);
      assert order[..p] + order[p + 1..] == restInit + [last];
      SizeRemove(linodes, init, p);
      SizeSnoc(linodes, restInit, last);
      assert init[p] == order[p];
    } else {
      assert order[..p] + order[p + 1..] == init;
    }
  }

  /** Dropping position `p` from a list of distinct keys drops exactly that key. */
  lemma DropAt(s: seq<string>, p: nat)
    requires Distinct(s) && p < |s|
    ensures Distinct(s[..p] + s[p + 1..])
    ensures forall h :: h in s[..p] + s[p + 1..] <==> h in s && h != s[p]
  {
    var rest := s[..p] + s[p + 1..];
    forall i, j | 0 <= i < j < |rest|
      ensures rest[i] != rest[j]
    {
      var i' := if i < p then i else i + 1;
      var j' := if j < p then j else j + 1;
      assert rest[i] == s[i'] && rest[j] == s[j'];
    }
    forall h
      ensures h in rest <==> h in s && h != s[p]
    {
      if h in s && h != s[p] {
        var k :| 0 <= k < |s| && s[k] == h;
        if k < p { assert rest[k] == h; } else { assert rest[k - 1] == h; }
      }
      if h in rest {
        var k :| 0 <= k < |rest| && rest[k] == h;
        if k < p { assert s[k] == h; } else { assert s[k + 1] == h; }
      }
    }
  }

  /** Size does not depend on the order in which the map's keys are visited. */
  lemma {:induction false} SizeAnyOrder(linodes: Linodes, o1: seq<string>, o2: seq<string>)
    requires InMap(linodes, o1) && Distinct(o1) && Distinct(o2)
    requires forall g :: g in o1 <==> g in o2
    ensures Size(linodes, o1) == Size(linodes, o2)
    decreases |o1|
  {
    if |o1| > 0 {
      var n := |o1|;
      var g := o1[n - 1];
      assert g in o2;
      var p :| 0 <= p < |o2| && o2[p] == g;
      SizeRemove(linodes, o2, p);
      DropAt(o2, p);
      DropAt(o1, n - 1);
      assert o1[..n - 1] + o1[n..] == o1[..n - 1];
      var rest1, rest2 := o1[..n - 1], o2[..p] + o2[p + 1..];
      forall h
        ensures h in rest1 <==> h in rest2
      {
        assert h in rest1 <==> h in o1[..n - 1] + o1[n..];
        assert h in rest1 <==> h in o1 && h != g;
      }
      SizeAnyOrder(linodes, rest1, rest2);
    }
  }

  // ---------------------------------------------------------------------
  // Grouping the decoded lists
  // ---------------------------------------------------------------------

  function GroupKey(l: Linode): string {
    l.displayGroup
  }

  function Owner(ip: LinodeIp): int {
    ip.linodeId
  }

  /** Puts every decoded linode, in input order, into the group of its display group. */
  method GroupLinodes(decoded: seq<Linode>) returns (linodes: Linodes)
    ensures linodes == GroupBy(decoded, GroupKey)
    ensures forall l :: l in decoded ==> l.displayGroup in linodes && l in linodes[l.displayGroup]
  {
    linodes := map[];
    GroupByEmpty(GroupKey);
    for i := 0 to |decoded|
      invariant linodes == GroupBy(decoded[..i], GroupKey)
    {
      var l := decoded[i];
      GroupByStep(decoded, i, GroupKey);
      linodes := Append(linodes, l.displayGroup, l);
    }
    assert decoded[..|decoded|] == decoded;
    GroupByMembers(decoded, GroupKey);
  }

  /** Puts every decoded IP record of every response under the id of its linode. */
  method GroupIps(responses: seq<seq<LinodeIp>>) returns (ips: LinodeIps)
    ensures ips == GroupBy(Concat(responses), Owner)
  {
    ips := map[];
    GroupByEmpty(Owner);
    for r := 0 to |responses|
      invariant ips == GroupBy(Concat(responses[..r]), Owner)
    {
      ips := AddIps(ips, responses[r], Concat(responses[..r]));
      assert responses[..r + 1][..r] == responses[..r];
    }
    assert responses[..|responses|] == responses;
  }

  /** Files the records of one response under their linodes' ids, after those of `seen`. */
  method AddIps(ips: LinodeIps, ipList: seq<LinodeIp>, ghost seen: seq<LinodeIp>) returns (result: LinodeIps)
    requires ips == GroupBy(seen, Owner)
    ensures result == GroupBy(seen + ipList, Owner)
  {
    result := ips;
    GroupByExtend(seen, ipList, 0, Owner);
    for i := 0 to |ipList|
      invariant result == GroupBy(seen + ipList[..i], Owner)
    {
      var ip := ipList[i];
      GroupByExtend(seen, ipList, i, Owner);
      result := Append(result, ip.linodeId, ip);
    }
    GroupByExtend(seen, ipList, |ipList|, Owner);
  }

  /** Grouping loses and duplicates nothing: the grouped map holds as many linodes as were decoded. */
  lemma GroupedSize(decoded: seq<Linode>, order: seq<string>)
    requires IsKeyOrder(order, GroupBy(decoded, GroupKey))
    ensures Size(GroupBy(decoded, GroupKey), order) == |decoded|
  {
    SizeIsGroupSizes(decoded, order);
    GroupByMembers(decoded, GroupKey);
    GroupSizesTotal(decoded, GroupKey, order);
  }

  lemma {:induction false} SizeIsGroupSizes(decoded: seq<Linode>, order: seq<string>)
    requires InMap(GroupBy(decoded, GroupKey), order)
    ensures Size(GroupBy(decoded, GroupKey), order) == GroupSizes(decoded, GroupKey, order)
  {
    if |order| > 0 {
      SizeIsGroupSizes(decoded, order[..|order| - 1]);
    }
  }

  // ---------------------------------------------------------------------
  // Sorting
  // ---------------------------------------------------------------------

  /** Public first: `Less(i, j)` is `ips[i].Public > ips[j].Public`, so `a` may precede `b` when `!(b.public > a.public)`. */
  function PublicFirst(a: LinodeIp, b: LinodeIp): (mayPrecede: bool)
    ensures mayPrecede <==> !(b.public > a.public)
  {
    a.public >= b.public
  }

  /** By label: `a` may precede `b` when `!(b.name < a.name)` in byte order. */
  function ByLabel(a: Linode, b: Linode): (mayPrecede: bool)
    ensures mayPrecede <==> a.name == b.name || Less(a.name, b.name)
  {
    LessTotal(a.name, b.name);
    LessIrreflexive(a.name);
    if Less(a.name, b.name) then LessAsymmetric(a.name, b.name); !Less(b.name, a.name)
    else !Less(b.name, a.name)
  }

  lemma ByLabelIsTotalPreorder()
    ensures TotalPreorder(ByLabel)
  {
    forall x: Linode, y: Linode
      ensures ByLabel(x, y) || ByLabel(y, x)
    {
      LessTotal(x.name, y.name);
    }
    forall x: Linode, y: Linode, z: Linode | ByLabel(x, y) && ByLabel(y, z)
      ensures ByLabel(x, z)
    {
      if Less(x.name, y.name) && Less(y.name, z.name) {
        LessTransitive(x.name, y.name, z.name);
      }
    }
  }

  /** Sorts one IP list in place, public records first. */
  method SortLinodeIps(ips: array<LinodeIp>)
    modifies ips
    ensures Sorted(ips[..], PublicFirst)
    ensures multiset(ips[..]) == old(multiset(ips[..]))
  {
    InsertionSort(ips, PublicFirst);
  }

  /** Sorts one group in place by label. */
  method SortLinodes(group: array<Linode>)
    modifies group
    ensures Sorted(group[..], ByLabel)
    ensures multiset(group[..]) == old(multiset(group[..]))
  {
    ByLabelIsTotalPreorder();
    InsertionSort(group, ByLabel);
  }

  /** With public records first, the public address comes before every private one. */
  lemma PublicIpPrecedesPrivate(l: Linode, i: nat)
    requires Sorted(l.ips, PublicFirst)
    requires i < |l.ips| && l.ips[i].public == 1
    ensures exists k :: FirstWith(l.ips, 1, k) && PublicIp(l) == l.ips[k].ip
                        && forall j :: 0 <= j < |l.ips| && l.ips[j].public == 0 ==> k < j
  {
    var k := FirstIndex(l.ips, 1, i);
    forall j | 0 <= j < |l.ips| && l.ips[j].public == 0
      ensures k < j
    {
    }
  }

  lemma {:induction false} FirstIndex(ips: seq<LinodeIp>, flag: int, i: nat) returns (k: nat)
    requires i < |ips| && ips[i].public == flag
    ensures k <= i && FirstWith(ips, flag, k)
  {
    if exists j :: 0 <= j < i && ips[j].public == flag {
      var j :| 0 <= j < i && ips[j].public == flag;
      k := FirstIndex(ips, flag, j);
    } else {
      k := i;
    }
  }

  // ---------------------------------------------------------------------
  // Associating IP lists with linodes
  // ---------------------------------------------------------------------

  /** `a` is `b` with its IP list replaced as the association step does. */
  ghost predicate AttachedOne(b: Linode, a: Linode, ips: LinodeIps) {
    && a == b.(ips := a.ips)
    && if b.id in ips then Sorted(a.ips, PublicFirst) && multiset(a.ips) == multiset(ips[b.id])
       else a.ips == b.ips
  }

  ghost predicate IpsAttached(before: seq<Linode>, after: seq<Linode>, ips: LinodeIps) {
    |after| == |before| && forall j :: 0 <= j < |before| ==> AttachedOne(before[j], after[j], ips)
  }

  /**
   * `after` is the group `before` once associated: every linode carries its
   * sorted IP list (or keeps its own when there is none), and the group is
   * a permutation of those linodes, sorted by label.
   */
  ghost predicate Associated(before: seq<Linode>, after: seq<Linode>, ips: LinodeIps) {
    && Sorted(after, ByLabel)
    && exists attached :: IpsAttached(before, attached, ips) && multiset(attached) == multiset(after)
  }

  /** Gives every linode of the group that has IP records its records, sorted public-first. */
  method AttachIps(group: array<Linode>, ips: LinodeIps)
    modifies group
    ensures IpsAttached(old(group[..]), group[..], ips)
  {
    for j := 0 to group.Length
      invariant IpsAttached(old(group[..])[..j], group[..j], ips)
      invariant group[j..] == old(group[..])[j..]
    {
      var l := group[j];
      if l.id in ips {
        var list := ips[l.id];
        var sorted := new LinodeIp[|list|](k requires 0 <= k < |list| => list[k]);
        assert sorted[..] == list;
        SortLinodeIps(sorted);
        group[j] := l.(ips := sorted[..]);
      }
      assert group[..j + 1] == group[..j] + [group[j]];
    }
    assert group[..group.Length] == group[..];
    assert old(group[..])[..group.Length] == old(group[..]);
  }

  /** Attaches IP lists in every group, then sorts every group by label. Groups are taken in any order. */
  method Associate(linodes: Linodes, ips: LinodeIps) returns (result: Linodes)
    ensures result.Keys == linodes.Keys
    ensures forall g :: g in linodes ==> Associated(linodes[g], result[g], ips)
  {
    result := linodes;
    var todo := linodes.Keys;
    while todo != {}
      invariant todo <= linodes.Keys
      invariant result.Keys == linodes.Keys
      invariant forall g :: g in linodes && g !in todo ==> Associated(linodes[g], result[g], ips)
      decreases todo
    {
      var g :| g in todo;
      var group := linodes[g];
      var a := new Linode[|group|](k requires 0 <= k < |group| => group[k]);
      assert a[..] == group;
      AttachIps(a, ips);
      ghost var attached := a[..];
      SortLinodes(a);
      assert IpsAttached(group, attached, ips) && multiset(attached) == multiset(a[..]);
      result := result[g := a[..]];
      todo := todo - {g};
    }
  }

  /**
   * The directory built from the decoded responses: linodes grouped by
   * display group, IP records grouped by linode id, then associated.
   */
  method LinodesWithIps(decoded: seq<Linode>, responses: seq<seq<LinodeIp>>) returns (linodes: Linodes)
    ensures linodes.Keys == GroupBy(decoded, GroupKey).Keys
    ensures forall g :: g in linodes ==>
              Associated(GroupBy(decoded, GroupKey)[g], linodes[g], GroupBy(Concat(responses), Owner))
  {
    var grouped := GroupLinodes(decoded);
    var ips := GroupIps(responses);
    linodes := Associate(grouped, ips);
  }
}
