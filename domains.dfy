/**
 * The registry of subdomains (dns/domains.py).
 *
 * A Python dict keeps its keys in declaration order, and that order is what the linter
 * checks, so the registry is a sequence of entries; `AsMap` is its dictionary view.
 */
module Domains {
  import opened Wrappers
  import opened StrOrder

  /**
   * The `Domain` TypedDict: `cname` is required; `cloudflare` comes from `DomainOptional`
   * (`total=False`), so it may be absent.
   */
  datatype Domain = Domain(cname: string, cloudflare: Option<bool>)

  /** Whether the record is proxied through Cloudflare: an absent flag counts as false. */
  function Proxied(d: Domain): (r: bool)
    ensures r <==> d.cloudflare == Some(true)
  {
    d.cloudflare.GetOr(false)
  }

  /** One `name: {...}` item of the dictionary literal. */
  datatype Entry = Entry(name: string, info: Domain)

  /** `list(domains.keys())`: the names in declaration order. */
  function Keys(r: seq<Entry>): (keys: seq<string>)
    ensures |keys| == |r|
    ensures forall i :: 0 <= i < |r| ==> keys[i] == r[i].name
  {
    if r == [] then [] else [r[0].name] + Keys(r[1..])
  }

  /** No name is declared twice. */
  predicate DistinctKeys(r: seq<Entry>) {
    forall i, j :: 0 <= i < j < |r| ==> r[i].name != r[j].name
  }

  /** The dictionary the literal builds: a later item for the same name overrides an earlier one. */
  function AsMap(r: seq<Entry>): map<string, Domain> {
    if r == [] then map[] else AsMap(r[..|r| - 1])[r[|r| - 1].name := r[|r| - 1].info]
  }

  /** The dictionary's keys are exactly the declared names. */
  lemma {:induction false} AsMapKeys(r: seq<Entry>)
    ensures forall k :: k in AsMap(r) <==> k in Keys(r)
  {
    if r != [] {
      var init := r[..|r| - 1];
      AsMapKeys(init);
      assert Keys(r) == Keys(init) + [r[|r| - 1].name];
    }
  }

  /** The dictionary keeps, for each name, the record of the last item that declares it. */
  lemma {:induction false} AsMapLastWins(r: seq<Entry>, i: nat)
    requires i < |r|
    requires forall j :: i < j < |r| ==> r[j].name != r[i].name
    ensures r[i].name in AsMap(r) && AsMap(r)[r[i].name] == r[i].info
  {
    var n := |r| - 1;
    var init := r[..n];
    assert AsMap(r) == AsMap(init)[r[n].name := r[n].info];
    if i < n {
      assert init[i] == r[i];
      assert forall j :: i < j < |init| ==> init[j] == r[j];
      AsMapLastWins(init, i);
      assert r[i].name != r[n].name;
    }
  }

  /** Without repeated names, the dictionary maps each declared name to its own record. */
  lemma AsMapLookup(r: seq<Entry>, i: nat)
    requires DistinctKeys(r) && i < |r|
    ensures r[i].name in AsMap(r) && AsMap(r)[r[i].name] == r[i].info
  {
    AsMapLastWins(r, i);
  }

  /** The `domains` table, in declaration order. */
  const Registry: seq<Entry> := [
    Entry("wolf", Domain("cc-wolf-os.github.io", None)),
    Entry("www", Domain("madefor.cc", None))
  ]

  /** "Please make sure to keep this sorted!": the names are in strictly ascending order. */
  lemma RegistryKeysStrictlyAscending()
    ensures StrictlyAscending(Keys(Registry))
  {
    var keys := Keys(Registry);
    assert keys == ["wolf", "www"];
    assert "wolf"[1..] == "olf" && "www"[1..] == "ww";
    assert LessEq("wolf", "www");
  }

  /** No name is declared twice, so each name has exactly one record. */
  lemma RegistryKeysDistinct()
    ensures DistinctKeys(Registry)
  {
    RegistryKeysStrictlyAscending();
    var keys := Keys(Registry);
    assert forall i, j :: 0 <= i < j < |Registry| ==> Less(keys[i], keys[j]);
  }

  /** Every entry sets only the required `cname`, so none is proxied. */
  lemma RegistryNotProxied()
    ensures forall e <- Registry :: e.info.cloudflare == None && !Proxied(e.info)
  {
  }

  /** The dictionary view of the table, with each name mapped to its own record. */
  lemma RegistryAsMap()
    ensures AsMap(Registry) == map[
      "wolf" := Domain("cc-wolf-os.github.io", None),
      "www" := Domain("madefor.cc", None)]
  {
    assert Registry[..1] == [Registry[0]];
    assert Registry[..1][..0] == [];
  }
}
