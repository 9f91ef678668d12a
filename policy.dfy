/**
 * Which groups and linodes are eligible, under the two configuration
 * versions of the program: `Configuration` with its display-group search,
 * and the later `configuration` (`Options` here) with a lookup set built
 * from the display-group list and a running-only flag.
 */
module Policy {

  /** The `[linode]` section of the INI file. */
  datatype Configuration = Configuration(
    apiKey: string,
    displayGroup: seq<string>,   // groups to include; empty means all
    user: string,                // ssh User, "" when not set
    identityFile: string)        // ssh IdentityFile, "" when not set

  /** Linear search of the configured groups, returning at the first match. */
  function Search(groups: seq<string>, g: string): (found: bool)
    ensures found <==> g in groups
  {
    if |groups| == 0 then false
    else if groups[0] == g then true
    else Search(groups[1..], g)
  }

  /** An empty list accepts every group; otherwise a group is accepted when it is listed. */
  function ContainsDisplayGroup(c: Configuration, g: string): (accepted: bool)
    ensures |c.displayGroup| == 0 ==> accepted
    ensures |c.displayGroup| > 0 ==> (accepted <==> g in c.displayGroup)
  {
    if |c.displayGroup| == 0 then true else Search(c.displayGroup, g)
  }

  /**
   * The answer depends only on which names are listed, not on their
   * positions or repetitions.
   */
  lemma ContainsDependsOnlyOnListedNames(c1: Configuration, c2: Configuration, g: string)
    requires forall h :: h in c1.displayGroup <==> h in c2.displayGroup
    ensures ContainsDisplayGroup(c1, g) == ContainsDisplayGroup(c2, g)
  {
    if |c1.displayGroup| > 0 {
      assert c1.displayGroup[0] in c2.displayGroup;
    }
    if |c2.displayGroup| > 0 {
      assert c2.displayGroup[0] in c1.displayGroup;
    }
  }

  // ---------------------------------------------------------------------
  // The later configuration version
  // ---------------------------------------------------------------------

  /** A Go map of group names: `nil` until it is made, then its set of keys. */
  datatype Lookup = Nil | Made(keys: set<string>)

  datatype Options = Options(
    apiKey: string,
    displayGroups: seq<string>,  // groups to include; empty means all
    running: bool,               // only consider running linodes
    user: string,
    identityFile: string,
    displayGroupLookup: Lookup)  // filled from displayGroups after parsing

  /**
   * With no display groups every group passes; otherwise a group passes
   * when it is a key of the lookup (reading a nil map finds nothing).
   */
  function FilterDisplayGroup(c: Options, g: string): (accepted: bool)
    ensures |c.displayGroups| == 0 ==> accepted
    ensures |c.displayGroups| > 0 && c.displayGroupLookup.Nil? ==> !accepted
    ensures |c.displayGroups| > 0 && c.displayGroupLookup.Made? ==> (accepted <==> g in c.displayGroupLookup.keys)
  {
    if |c.displayGroups| == 0 then true
    else match c.displayGroupLookup
      case Nil => false
      case Made(keys) => g in keys
  }

  /** With the running-only flag set, only running linodes pass; without it, all do. */
  function FilterRunning(c: Options, isRunning: bool): (accepted: bool)
    ensures c.running ==> (accepted <==> isRunning)
    ensures !c.running ==> accepted
  {
    if c.running then isRunning else true
  }

  /** The group names as a set, filled one name at a time. */
  method BuildLookup(groups: seq<string>) returns (lookup: set<string>)
    ensures forall g :: g in lookup <==> g in groups
  {
    lookup := {};
    for i := 0 to |groups|
      invariant forall g :: g in lookup <==> g in groups[..i]
    {
      lookup := lookup + {groups[i]};
      assert groups[..i + 1] == groups[..i] + [groups[i]];
    }
    assert groups[..|groups|] == groups;
  }

  /** The lookup-filling step after parsing, with the map made before it is written. */
  method FillLookup(c: Options) returns (filled: Options)
    ensures filled == c.(displayGroupLookup := filled.displayGroupLookup)
    ensures filled.displayGroupLookup.Made?
    ensures forall g :: g in filled.displayGroupLookup.keys <==> g in c.displayGroups
  {
    var lookup := BuildLookup(c.displayGroups);
    filled := c.(displayGroupLookup := Made(lookup));
  }

  /** The configuration in the earlier form, with the same groups and login settings. */
  function AsConfiguration(c: Options): Configuration {
    Configuration(c.apiKey, c.displayGroups, c.user, c.identityFile)
  }

  /**
   * Once the lookup holds exactly the listed groups, the later filter
   * agrees with the earlier search on every group name.
   */
  lemma FilterDisplayGroupAgrees(c: Options, g: string)
    requires c.displayGroupLookup.Made?
    requires forall h :: h in c.displayGroupLookup.keys <==> h in c.displayGroups
    ensures FilterDisplayGroup(c, g) == ContainsDisplayGroup(AsConfiguration(c), g)
  {
  }

  // ---------------------------------------------------------------------
  // The lookup-filling loop as written: it writes into a map that nothing
  // has made, which panics in Go.
  // ---------------------------------------------------------------------

  datatype Loaded = Loaded(options: Options) | Panic(message: string)

  /**
   * `for _, dg := range DisplayGroups { displayGroupLookup[dg] = empty{} }`
   * on the configuration as parsed, whose lookup map is still nil.
   */
  method FillLookupAsWritten(c: Options) returns (r: Loaded)
    ensures r.Panic? <==> |c.displayGroups| > 0 && c.displayGroupLookup.Nil?
    ensures r.Loaded? && c.displayGroupLookup.Made? ==>
              r.options == c.(displayGroupLookup := Made(c.displayGroupLookup.keys + set g | g in c.displayGroups))
    ensures r.Loaded? && c.displayGroupLookup.Nil? ==> r.options == c
  {
    var lookup := c.displayGroupLookup;
    for i := 0 to |c.displayGroups|
      invariant lookup.Nil? <==> c.displayGroupLookup.Nil?
      invariant lookup.Nil? ==> i == 0
      invariant lookup.Made? ==> lookup.keys == c.displayGroupLookup.keys + set g | g in c.displayGroups[..i]
    {
      if lookup.Nil? {
        return Panic("assignment to entry in nil map");
      }
      lookup := Made(lookup.keys + {c.displayGroups[i]});
      assert c.displayGroups[..i + 1] == c.displayGroups[..i] + [c.displayGroups[i]];
    }
    assert c.displayGroups[..|c.displayGroups|] == c.displayGroups;
    r := Loaded(c.(displayGroupLookup := lookup));
  }

  /** A configuration parsed with one display group panics in the loop as written. */
  method NilLookupPanics() returns (r: Loaded)
    ensures r.Panic?
  {
    var parsed := Options("key", ["prod"], true, "", "", Nil);
    r := FillLookupAsWritten(parsed);
  }
}
