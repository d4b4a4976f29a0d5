/** The distribution registry of the installer: the package repositories a
  * mapping can name, and the table of supported distributions that each
  * back-end registers itself in. */
module DistrosInterface {
  import opened Common

  datatype DistroFamily = FamilyArch | FamilyFedora | FamilySUSE | FamilyUbuntu | FamilyDebian | FamilyNix | FamilyGentoo

  /** Where a package comes from. */
  datatype RepositoryType = RepoTypeSystem | RepoTypeAUR | RepoTypeCOPR | RepoTypePPA | RepoTypeFlake | RepoTypeGURU | RepoTypeManual

  /** How one dependency is installed on a distribution. */
  datatype PackageMapping = PackageMapping(
    Name: string, Repository: RepositoryType, RepoURL: string, BuildFunc: string,
    UseFlags: string, AcceptKeywords: string)

  /** A mapping with only a name and a repository set. */
  function Mapping(name: string, repo: RepositoryType): (m: PackageMapping)
    ensures m.Name == name && m.Repository == repo
  {
    PackageMapping(name, repo, "", "", "", "")
  }

  /** A registered distribution: its ID, its colour and its family. */
  datatype DistroConfig = DistroConfig(ID: string, ColorHex: string, Family: DistroFamily)

  /** The table after `Register`: the entry for `id` is replaced, every
    * other entry kept. */
  function Registered(table: map<string, DistroConfig>, id: string, colorHex: string, family: DistroFamily)
    : (r: map<string, DistroConfig>)
    ensures r.Keys == table.Keys + {id}
    ensures r[id] == DistroConfig(id, colorHex, family)
    ensures forall other :: other in table && other != id ==> r[other] == table[other]
  {
    table[id := DistroConfig(id, colorHex, family)]
  }

  /** The message of `UnsupportedDistributionError`. */
  function UnsupportedMessage(id: string): (m: string)
  {
    "unsupported distribution: " + id
  }

  /** `NewDistribution` on a table: the registered entry, or the
    * unsupported-distribution error naming the ID. */
  function Lookup(table: map<string, DistroConfig>, id: string): (r: Result<DistroConfig>)
    ensures r.Ok? <==> id in table
    ensures r.Ok? ==> r.value == table[id]
    ensures r.Err? ==> r.msg == UnsupportedMessage(id)
  {
    if id in table then Ok(table[id]) else Err(UnsupportedMessage(id))
  }

  /** The global `Registry` of the distributions package. */
  class Registry {
    var configs: map<string, DistroConfig>

    constructor ()
      ensures configs == map[]
    {
      configs := map[];
    }

    /** `Register`: adds a distribution, replacing an earlier entry with
      * the same ID. */
    method Register(id: string, colorHex: string, family: DistroFamily)
      modifies this
      ensures configs == Registered(old(configs), id, colorHex, family)
    {
      configs := configs[id := DistroConfig(id, colorHex, family)];
    }

    /** `IsDistroSupported`: whether the ID is registered. */
    method IsDistroSupported(id: string) returns (supported: bool)
      ensures supported <==> id in configs
    {
      supported := id in configs;
    }

    /** `NewDistribution`: the registered entry for the ID, or the
      * unsupported-distribution error. The back-end's constructor is not
      * called here; the entry it would be given is returned. */
    method NewDistribution(id: string) returns (r: Result<DistroConfig>)
      ensures r == Lookup(configs, id)
    {
      if id !in configs {
        return Err(UnsupportedMessage(id));
      }
      return Ok(configs[id]);
    }
  }

  /** A registered ID is supported and looks up its own entry. */
  lemma RegisterThenLookup(table: map<string, DistroConfig>, id: string, colorHex: string, family: DistroFamily)
    ensures Lookup(Registered(table, id, colorHex, family), id) == Ok(DistroConfig(id, colorHex, family))
  {
  }

  /** Registering one ID leaves the answer for every other ID as it was. */
  lemma RegisterKeepsOthers(table: map<string, DistroConfig>, id: string, colorHex: string, family: DistroFamily, other: string)
    requires other != id
    ensures Lookup(Registered(table, id, colorHex, family), other) == Lookup(table, other)
  {
  }

  /** Of two registrations under one ID, the later one wins. */
  lemma LaterRegistrationWins(table: map<string, DistroConfig>, id: string, c1: string, f1: DistroFamily, c2: string, f2: DistroFamily)
    ensures Registered(Registered(table, id, c1, f1), id, c2, f2) == Registered(table, id, c2, f2)
  {
  }

  /** The table after registering each (ID, colour) pair of `ids` in the
    * Arch family, in order, as the Arch back-end's `init` does for its
    * eight IDs. */
  function RegisterAll(table: map<string, DistroConfig>, ids: seq<(string, string)>): (r: map<string, DistroConfig>)
    decreases |ids|
  {
    if |ids| == 0 then table
    else RegisterAll(Registered(table, ids[0].0, ids[0].1, FamilyArch), ids[1..])
  }

  /** After the registrations every listed ID is an Arch-family
    * distribution, and nothing else was added. */
  lemma {:induction false} RegisterAllSupports(table: map<string, DistroConfig>, ids: seq<(string, string)>)
    ensures RegisterAll(table, ids).Keys == table.Keys + set k | 0 <= k < |ids| :: ids[k].0
    ensures forall k :: 0 <= k < |ids| ==> RegisterAll(table, ids)[ids[k].0].Family == FamilyArch
    decreases |ids|
  {
    if |ids| > 0 {
      var next := Registered(table, ids[0].0, ids[0].1, FamilyArch);
      RegisterAllSupports(next, ids[1..]);
      var rest := set k | 0 <= k < |ids[1..]| :: ids[1..][k].0;
      var all := set k | 0 <= k < |ids| :: ids[k].0;
      assert all == {ids[0].0} + rest by {
        forall x | x in all ensures x in {ids[0].0} + rest {
          var k :| 0 <= k < |ids| && ids[k].0 == x;
          if k > 0 { assert ids[1..][k - 1].0 == x; }
        }
        forall x | x in rest ensures x in all {
          var k :| 0 <= k < |ids[1..]| && ids[1..][k].0 == x;
          assert ids[k + 1].0 == x;
        }
      }
      forall k | 0 <= k < |ids| ensures RegisterAll(table, ids)[ids[k].0].Family == FamilyArch {
        if k > 0 {
          assert ids[k] == ids[1..][k - 1];
        } else if ids[0].0 !in rest {
          assert RegisterAll(next, ids[1..])[ids[0].0] == next[ids[0].0] by {
            RegisterAllKeepsUnlisted(next, ids[1..], ids[0].0);
          }
        } else {
          var j :| 0 <= j < |ids[1..]| && ids[1..][j].0 == ids[0].0;
        }
      }
    }
  }

  /** An ID not among `ids` keeps its entry. */
  lemma {:induction false} RegisterAllKeepsUnlisted(table: map<string, DistroConfig>, ids: seq<(string, string)>, id: string)
    requires id in table && forall k :: 0 <= k < |ids| ==> ids[k].0 != id
    ensures id in RegisterAll(table, ids) && RegisterAll(table, ids)[id] == table[id]
    decreases |ids|
  {
    if |ids| > 0 {
      var next := Registered(table, ids[0].0, ids[0].1, FamilyArch);
      assert forall k :: 0 <= k < |ids| - 1 ==> ids[1..][k] == ids[k + 1];
      RegisterAllKeepsUnlisted(next, ids[1..], id);
    }
  }
}
