/**
 * The registry linter, `main` of dns/lint.py without the `--fetch-domains` branch.
 *
 * The run starts valid; the ordering check and the per-entry CNAME check can each make it
 * invalid, and the process exits with 0 when it stayed valid and 1 otherwise. The registry is
 * a value: the linter only reads it.
 */
module Lint {
  import opened Wrappers
  import opened StrOrder
  import opened Diff
  import opened Cname
  import opened Domains

  /** What the check of one entry reports: nothing, or one finding. */
  function EntryFindings(e: Entry): seq<Finding> {
    match CheckEntry(e.name, e.info.cname)
    case Some(f) => [f]
    case None => []
  }

  /** The findings of the CNAME loop (lines 41-57), one per offending entry, in table order. */
  function CnameFindings(r: seq<Entry>): seq<Finding> {
    if r == [] then [] else EntryFindings(r[0]) + CnameFindings(r[1..])
  }

  /** No CNAME in the table contains `/`. */
  predicate CnamesValid(r: seq<Entry>) {
    forall i :: 0 <= i < |r| ==> '/' !in r[i].info.cname
  }

  /** The run stays valid: the names are sorted and every CNAME passes. */
  predicate RegistryValid(r: seq<Entry>) {
    Ascending(Keys(r)) && CnamesValid(r)
  }

  /** `sys.exit(0 if valid else 1)`. */
  function ExitCode(valid: bool): (code: nat)
    ensures code <= 1
    ensures code == 0 <==> valid
  {
    if valid then 0 else 1
  }

  /** Every entry is checked on its own: the findings of a table are those of its parts, joined. */
  lemma {:induction false} CnameFindingsAppend(r1: seq<Entry>, r2: seq<Entry>)
    ensures CnameFindings(r1 + r2) == CnameFindings(r1) + CnameFindings(r2)
  {
    if r1 == [] {
      assert r1 + r2 == r2;
    } else {
      var rest := r1[1..];
      calc {
        CnameFindings(r1 + r2);
        { assert (r1 + r2)[0] == r1[0] && (r1 + r2)[1..] == rest + r2; }
        EntryFindings(r1[0]) + CnameFindings(rest + r2);
        { CnameFindingsAppend(rest, r2); }
        EntryFindings(r1[0]) + (CnameFindings(rest) + CnameFindings(r2));
        (EntryFindings(r1[0]) + CnameFindings(rest)) + CnameFindings(r2);
      }
    }
  }

  /** A table yields no CNAME finding exactly when no CNAME contains `/`. */
  lemma {:induction false} CnameFindingsEmptyIff(r: seq<Entry>)
    ensures CnameFindings(r) == [] <==> CnamesValid(r)
  {
    if r != [] {
      CnameFindingsEmptyIff(r[1..]);
      assert CnamesValid(r) <==> '/' !in r[0].info.cname && CnamesValid(r[1..]);
    }
  }

  /** Each entry whose CNAME contains `/` is reported, with its suggestion. */
  lemma {:induction false} CnameFindingsComplete(r: seq<Entry>, i: nat)
    requires i < |r| && '/' in r[i].info.cname
    ensures Finding(r[i].name, r[i].info.cname, Suggest(r[i].info.cname)) in CnameFindings(r)
  {
    if i > 0 {
      assert r[1..][i - 1] == r[i];
      CnameFindingsComplete(r[1..], i - 1);
    }
  }

  /** Every finding names an entry of the table whose CNAME contains `/`. */
  lemma {:induction false} CnameFindingsSound(r: seq<Entry>, f: Finding)
    requires f in CnameFindings(r)
    ensures '/' in f.cname
    ensures exists i :: 0 <= i < |r| && r[i].name == f.domain && r[i].info.cname == f.cname
  {
    if f !in EntryFindings(r[0]) {
      CnameFindingsSound(r[1..], f);
      var i :| 0 <= i < |r[1..]| && r[1..][i].name == f.domain && r[1..][i].info.cname == f.cname;
      assert r[i + 1] == r[1..][i];
    }
  }

  /** One more entry keeps the table valid exactly when its CNAME holds no `/`. */
  lemma CnamesValidStep(r: seq<Entry>, i: nat)
    requires i < |r|
    ensures CnamesValid(r[..i + 1]) <==> CnamesValid(r[..i]) && '/' !in r[i].info.cname
  {
    assert r[..i + 1][i] == r[i];
  }

  /** What one more entry adds to the findings. */
  lemma CnameFindingsStep(r: seq<Entry>, i: nat)
    requires i < |r|
    ensures CnameFindings(r[..i + 1]) == CnameFindings(r[..i])
      + (if '/' in r[i].info.cname then [Finding(r[i].name, r[i].info.cname, Suggest(r[i].info.cname))] else [])
  {
    assert r[..i + 1] == r[..i] + [r[i]];
    CnameFindingsAppend(r[..i], [r[i]]);
    assert [r[i]][1..] == [];
    assert CnameFindings([r[i]]) == EntryFindings(r[i]) + [];
  }

  /**
   * The loop over `domains.items()` (lines 41-57): every entry is examined, and any CNAME
   * holding `/` clears `valid`. The items of a dictionary never repeat a name.
   */
  method CheckCnames(registry: seq<Entry>, validIn: bool) returns (valid: bool, findings: seq<Finding>)
    requires DistinctKeys(registry)
    ensures valid <==> validIn && CnamesValid(registry)
    ensures findings == CnameFindings(registry)
  {
    valid := validIn;
    findings := [];
    for i := 0 to |registry|
      invariant valid <==> validIn && CnamesValid(registry[..i])
      invariant findings == CnameFindings(registry[..i])
    {
      var entry := registry[i];
      if '/' in entry.info.cname {
        valid := false;
        findings := findings + [Finding(entry.name, entry.info.cname, Suggest(entry.info.cname))];
      }
      CnamesValidStep(registry, i);
      CnameFindingsStep(registry, i);
    }
    assert registry[..|registry|] == registry;
  }

  /**
   * `main(fetch_domains=False)`. `ops` stands for `SequenceMatcher(None, domain_list,
   * sorted_domain_list).get_opcodes()`, which is only consulted when the names are unsorted.
   * Returns the exit code, whether "Domain list is not sorted" was logged, the diff lines and
   * the CNAME findings. `registry` is the `domains` dictionary as its items in declaration
   * order, so no name occurs twice.
   */
  method Lint(registry: seq<Entry>, ops: seq<Opcode>)
    returns (exitCode: nat, unsorted: bool, diff: seq<Line>, findings: seq<Finding>)
    requires DistinctKeys(registry)
    requires Keys(registry) != Sort(Keys(registry)) ==> Tiles(ops, Keys(registry), Sort(Keys(registry)))
    ensures exitCode == ExitCode(RegistryValid(registry))
    ensures exitCode == 0 <==> Ascending(Keys(registry))
                               && forall k :: k in AsMap(registry) ==> '/' !in AsMap(registry)[k].cname
    ensures unsorted <==> !Ascending(Keys(registry))
    ensures unsorted ==> AllInBounds(ops, Keys(registry), Sort(Keys(registry)))
                         && diff == Render(ops, Keys(registry), Sort(Keys(registry)))
                         && diff != []
    ensures !unsorted ==> diff == []
    ensures findings == CnameFindings(registry)
  {
    var valid := true;

    var domainList := Keys(registry);
    var sortedDomainList := Sort(domainList);

    SortedIffAscending(domainList);
    unsorted := domainList != sortedDomainList;
    diff := [];
    if unsorted {
      valid := false;
      RenderNonEmpty(ops, domainList, sortedDomainList);
      diff := RenderDiff(ops, domainList, sortedDomainList);
    }

    valid, findings := CheckCnames(registry, valid);

    exitCode := ExitCode(valid);
    CnamesValidOnDict(registry);
  }

  /** Over the items of a dictionary, the CNAME check is a check of every record the dictionary holds. */
  lemma CnamesValidOnDict(r: seq<Entry>)
    requires DistinctKeys(r)
    ensures CnamesValid(r) <==> forall k :: k in AsMap(r) ==> '/' !in AsMap(r)[k].cname
  {
    AsMapKeys(r);
    if CnamesValid(r) {
      forall k | k in AsMap(r)
        ensures '/' !in AsMap(r)[k].cname
      {
        assert k in Keys(r);
        var i :| 0 <= i < |r| && Keys(r)[i] == k;
        AsMapLookup(r, i);
      }
    } else {
      var i :| 0 <= i < |r| && '/' in r[i].info.cname;
      AsMapLookup(r, i);
    }
  }

  /** A sorted registry gets no diff and no ordering error: validity hangs on the CNAMEs alone. */
  lemma SortedRegistryValidity(r: seq<Entry>)
    requires Ascending(Keys(r))
    ensures Keys(r) == Sort(Keys(r))
    ensures RegistryValid(r) <==> CnameFindings(r) == []
  {
    SortedIffAscending(Keys(r));
    CnameFindingsEmptyIff(r);
  }

  /** The shipped table passes the linter: it is sorted and holds no URL, so the exit code is 0. */
  lemma RegistryPassesLint()
    ensures Keys(Registry) == Sort(Keys(Registry))
    ensures CnameFindings(Registry) == []
    ensures RegistryValid(Registry) && ExitCode(RegistryValid(Registry)) == 0
  {
    var keys := Keys(Registry);
    RegistryKeysStrictlyAscending();
    assert Ascending(keys);
    SortedIffAscending(keys);
    RegistryCnamesValid();
    CnameFindingsEmptyIff(Registry);
  }

  /** No CNAME of the shipped table contains `/`. */
  lemma RegistryCnamesValid()
    ensures CnamesValid(Registry)
  {
    WolfCnameHasNoSlash();
    WwwCnameHasNoSlash();
  }

  lemma WolfCnameHasNoSlash()
    ensures '/' !in Registry[0].info.cname
  {
    // Short literal pieces let the solver check each character of the 20-character CNAME.
    var c := Registry[0].info.cname;
    assert c == "cc-wo" + "lf-os" + ".gith" + "ub.io";
  }

  lemma WwwCnameHasNoSlash()
    ensures '/' !in Registry[1].info.cname
  {
    assert Registry[1].info.cname == "madefor.cc";
  }

  /** `sorted(["b", "a"])` is `["a", "b"]`. */
  lemma SwappedPairSorted()
    ensures Sort(["b", "a"]) == ["a", "b"]
  {
    assert "a"[0] < "b"[0];
    assert LessEq("a", "b");
    assert Ascending(["a", "b"]);
    assert multiset(["a", "b"]) == multiset(["b", "a"]);
    SortIsUnique(["b", "a"], ["a", "b"]);
  }

  /** The opcodes "insert a, equal b, delete a" tile `["b", "a"]` against `["a", "b"]` and print `+ a`, `  b`, `- a`. */
  lemma SwappedPairDiff()
    ensures var ops := [Opcode(Insert, 0, 0, 0, 1), Opcode(Equal, 0, 1, 1, 2), Opcode(Delete, 1, 2, 2, 2)];
      Tiles(ops, ["b", "a"], ["a", "b"])
      && Render(ops, ["b", "a"], ["a", "b"]) == [Line(Added, "a"), Line(Unchanged, "b"), Line(Removed, "a")]
  {
    var ops := [Opcode(Insert, 0, 0, 0, 1), Opcode(Equal, 0, 1, 1, 2), Opcode(Delete, 1, 2, 2, 2)];
    var a, b := ["b", "a"], ["a", "b"];
    assert ops[1..] == [Opcode(Equal, 0, 1, 1, 2), Opcode(Delete, 1, 2, 2, 2)];
    assert ops[1..][1..] == [Opcode(Delete, 1, 2, 2, 2)];
    assert ops[1..][1..][1..] == [];
    assert a[0..1] == b[1..2] == ["b"];
    assert TilesFrom(ops[1..][1..], a, b, 1, 2);
    assert TilesFrom(ops[1..], a, b, 0, 1);
    assert RenderOp(ops[0], a, b) == [Line(Added, "a")];
    assert RenderOp(ops[1], a, b) == [Line(Unchanged, "b")];
    assert RenderOp(ops[2], a, b) == [Line(Removed, "a")];
    assert Render(ops[1..][1..][1..], a, b) == [];
    assert Render(ops[1..][1..], a, b) == [Line(Removed, "a")];
    assert Render(ops[1..], a, b) == [Line(Unchanged, "b"), Line(Removed, "a")];
  }

  /** A table declared as `{"b": ..., "a": ...}` is reported unsorted and exits with code 1. */
  lemma ExampleSwappedPair(b: Domain, a: Domain)
    ensures var r := [Entry("b", b), Entry("a", a)];
      Keys(r) == ["b", "a"] && Sort(Keys(r)) == ["a", "b"]
      && !Ascending(Keys(r)) && ExitCode(RegistryValid(r)) == 1
  {
    var r := [Entry("b", b), Entry("a", a)];
    assert Keys(r) == ["b", "a"];
    assert !LessEq("b", "a");
    SwappedPairSorted();
  }
}
