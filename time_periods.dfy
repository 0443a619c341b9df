/**
  Time-of-day slicing of a reference ("all-day") scenario.  Extra attributes
  whose names end with a period name are grouped by domain and root; for every
  period the period's scenario slot is replaced by a copy of the reference, the
  siblings for other periods are deleted, and the period's values move to the
  canonical attribute: the root without one trailing "_".
*/
module TimePeriods {
  import opened Wrappers
  import opened Sets
  import opened Network
  import Transit
  import Ascii

  /** The network element kinds an extra attribute can belong to. */
  datatype Domain = NodeDomain | LinkDomain | TurnDomain | TransitLineDomain | TransitSegmentDomain

  /** The order in which the groups' domains are visited. */
  const DomainOrder: seq<Domain> :=
    [NodeDomain, LinkDomain, TurnDomain, TransitLineDomain, TransitSegmentDomain]

  /** An extra attribute: its domain, description and values (one per element of the domain). */
  datatype ExtraAttribute = ExtraAttribute(domain: Domain, description: string, values: seq<real>)

  /** Extra attributes by name. */
  type Attributes = map<string, ExtraAttribute>

  /** A scenario: its title, its extra attributes and its network. */
  datatype Scenario = Scenario(title: string, attrs: Attributes, net: Network)

  /** A configured time period and the scenario slot it is prepared in. */
  datatype Period = Period(name: string, scenarioId: int)

  datatype SliceError =
    | NoReferenceScenario             // the all-day scenario does not exist
    | ReferenceDeleted(scenarioId: int)  // a period slot is the reference itself
    | AttributeMissing(name: string)  // an attribute to delete or read is absent
    | AttributeExists(name: string)   // the canonical attribute to create exists
    | WrongDomain(name: string)       // the period attribute is not in the group's domain

  // ----- names -----

  predicate EndsWith(s: string, suffix: string) {
    |suffix| <= |s| && s[|s| - |suffix|..] == suffix
  }

  /** name[:-len(suffix)] with Python's slicing: an empty suffix leaves the empty root. */
  function StripSuffix(name: string, suffix: string): (root: string)
    requires EndsWith(name, suffix)
    ensures |suffix| > 0 ==> root + suffix == name
    ensures |suffix| == 0 ==> root == []
  {
    if |suffix| == 0 then [] else name[..|name| - |suffix|]
  }

  /** The canonical name of a root: one trailing "_" removed. */
  function Canonical(root: string): (c: string)
    ensures |root| > 0 && root[|root| - 1] == '_' ==> c + "_" == root
    ensures !(|root| > 0 && root[|root| - 1] == '_') ==> c == root
  {
    if |root| > 0 && root[|root| - 1] == '_' then root[..|root| - 1] else root
  }

  /** The canonical name is never longer than the root. */
  lemma CanonicalShorter(root: string)
    ensures |Canonical(root)| <= |root|
  {
  }

  /** The title of a period scenario: "<period> <reference title>" cut to 60 characters. */
  function Title(period: string, refTitle: string): (t: string)
    ensures |t| == if |period| + 1 + |refTitle| <= 60 then |period| + 1 + |refTitle| else 60
    ensures t == (period + " " + refTitle)[..|t|]
  {
    var full := period + " " + refTitle;
    if |full| <= 60 then full else full[..60]
  }

  // ----- discovering the groups -----

  /** The period-suffixed attributes of one domain sharing one root. */
  datatype Group = Group(domain: Domain, root: string, members: seq<string>)

  predicate HasKey(g: Group, d: Domain, root: string) {
    g.domain == d && g.root == root
  }

  /** Appends name to the group (d, root), opening that group at the end when new. */
  function AddMember(gs: seq<Group>, d: Domain, root: string, name: string): seq<Group>
  {
    if gs == [] then [Group(d, root, [name])]
    else if HasKey(gs[0], d, root) then [gs[0].(members := gs[0].members + [name])] + gs[1..]
    else [gs[0]] + AddMember(gs[1..], d, root, name)
  }

  /** The members of the first group with key (d, root); none when there is no such group. */
  function Members(gs: seq<Group>, d: Domain, root: string): seq<string>
  {
    if gs == [] then []
    else if HasKey(gs[0], d, root) then gs[0].members
    else Members(gs[1..], d, root)
  }

  /** Adding a member adds it to that group's members and to no other group's. */
  lemma {:induction false} MembersAdd(gs: seq<Group>, d: Domain, root: string, name: string, d': Domain, root': string)
    ensures Members(AddMember(gs, d, root, name), d', root') ==
      Members(gs, d', root') + (if d == d' && root == root' then [name] else [])
  {
    if gs != [] && !HasKey(gs[0], d, root) {
      MembersAdd(gs[1..], d, root, name, d', root');
      assert AddMember(gs, d, root, name)[1..] == AddMember(gs[1..], d, root, name);
    }
  }

  /** AddMember updates the first group with the key in place. */
  lemma {:induction false} AddMemberAt(gs: seq<Group>, d: Domain, root: string, name: string, g: nat)
    requires g < |gs| && HasKey(gs[g], d, root)
    requires forall m :: 0 <= m < g ==> !HasKey(gs[m], d, root)
    ensures AddMember(gs, d, root, name) == gs[g := gs[g].(members := gs[g].members + [name])]
  {
    if g > 0 {
      AddMemberAt(gs[1..], d, root, name, g - 1);
    }
  }

  /** Without a group with the key, AddMember opens one at the end. */
  lemma {:induction false} AddMemberNew(gs: seq<Group>, d: Domain, root: string, name: string)
    requires forall m :: 0 <= m < |gs| ==> !HasKey(gs[m], d, root)
    ensures AddMember(gs, d, root, name) == gs + [Group(d, root, [name])]
  {
    if gs != [] {
      AddMemberNew(gs[1..], d, root, name);
    }
  }

  /** The groups after one attribute of domain d has been checked against the periods in order. */
  function AddAttribute(gs: seq<Group>, name: string, d: Domain, periods: seq<Period>): seq<Group>
  {
    if periods == [] then gs
    else
      var before := AddAttribute(gs, name, d, periods[..|periods| - 1]);
      var p := periods[|periods| - 1].name;
      if EndsWith(name, p) then AddMember(before, d, StripSuffix(name, p), name) else before
  }

  /** The groups found on an attribute listing (name, domain), in listing order. */
  function Discover(listing: seq<(string, Domain)>, periods: seq<Period>): seq<Group>
  {
    if listing == [] then []
    else
      var last := listing[|listing| - 1];
      AddAttribute(Discover(listing[..|listing| - 1], periods), last.0, last.1, periods)
  }

  /** name ends with the name of one of the periods and root is what precedes it. */
  ghost predicate SuffixRoot(name: string, periods: seq<Period>, root: string) {
    exists k :: 0 <= k < |periods| && EndsWith(name, periods[k].name) && StripSuffix(name, periods[k].name) == root
  }

  lemma {:induction false} MembersAddAttribute(gs: seq<Group>, name: string, d: Domain, periods: seq<Period>, d': Domain, root: string, n: string)
    ensures n in Members(AddAttribute(gs, name, d, periods), d', root) <==>
      n in Members(gs, d', root) || (n == name && d == d' && SuffixRoot(name, periods, root))
  {
    if periods != [] {
      var init := periods[..|periods| - 1];
      var p := periods[|periods| - 1].name;
      MembersAddAttribute(gs, name, d, init, d', root, n);
      if EndsWith(name, p) {
        MembersAdd(AddAttribute(gs, name, d, init), d, StripSuffix(name, p), name, d', root);
      }
      if SuffixRoot(name, periods, root) {
        var k :| 0 <= k < |periods| && EndsWith(name, periods[k].name) && StripSuffix(name, periods[k].name) == root;
        if k < |init| {
          assert init[k] == periods[k];
        }
      }
      if SuffixRoot(name, init, root) {
        var k :| 0 <= k < |init| && EndsWith(name, init[k].name) && StripSuffix(name, init[k].name) == root;
        assert periods[k] == init[k];
      }
    }
  }

  /**
    Every listed attribute whose name ends with a period name is recorded, under
    its domain and under the root that precedes that period name, and nothing
    else is recorded: an attribute ending with two period names is recorded
    under two roots.
  */
  lemma {:induction false} DiscoverMembers(listing: seq<(string, Domain)>, periods: seq<Period>, d: Domain, root: string, n: string)
    ensures n in Members(Discover(listing, periods), d, root) <==>
      (exists i :: 0 <= i < |listing| && listing[i] == (n, d)) && SuffixRoot(n, periods, root)
  {
    if listing != [] {
      var init := listing[..|listing| - 1];
      var last := listing[|listing| - 1];
      DiscoverMembers(init, periods, d, root, n);
      MembersAddAttribute(Discover(init, periods), last.0, last.1, periods, d, root, n);
      if exists i :: 0 <= i < |listing| && listing[i] == (n, d) {
        var i :| 0 <= i < |listing| && listing[i] == (n, d);
        if i < |init| {
          assert init[i] == listing[i];
        }
      }
      if exists i :: 0 <= i < |init| && init[i] == (n, d) {
        var i :| 0 <= i < |init| && init[i] == (n, d);
        assert listing[i] == init[i];
      }
    }
  }

  /** The position of the group with key (d, root), if there is one. */
  method FindGroup(gs: seq<Group>, d: Domain, root: string) returns (g: int)
    ensures -1 <= g < |gs|
    ensures g >= 0 ==> HasKey(gs[g], d, root) && forall m :: 0 <= m < g ==> !HasKey(gs[m], d, root)
    ensures g < 0 ==> forall m :: 0 <= m < |gs| ==> !HasKey(gs[m], d, root)
  {
    g := 0;
    while g < |gs|
      invariant 0 <= g <= |gs|
      invariant forall m :: 0 <= m < g ==> !HasKey(gs[m], d, root)
    {
      if HasKey(gs[g], d, root) {
        return;
      }
      g := g + 1;
    }
    g := -1;
  }

  /**
    Groups the listed attributes: each attribute whose name ends with a period's
    name is appended to the group of its domain and of the root before that name.
  */
  method DiscoverGroups(listing: seq<(string, Domain)>, periods: seq<Period>) returns (gs: seq<Group>)
    ensures gs == Discover(listing, periods)
  {
    gs := [];
    var i := 0;
    while i < |listing|
      invariant 0 <= i <= |listing|
      invariant gs == Discover(listing[..i], periods)
    {
      var (name, d) := listing[i];
      assert listing[..i + 1][..i] == listing[..i];
      ghost var before := gs;
      var j := 0;
      while j < |periods|
        invariant 0 <= j <= |periods|
        invariant gs == AddAttribute(before, name, d, periods[..j])
      {
        assert periods[..j + 1][..j] == periods[..j];
        var p := periods[j].name;
        if EndsWith(name, p) {
          var root := StripSuffix(name, p);
          var g := FindGroup(gs, d, root);
          if g >= 0 {
            AddMemberAt(gs, d, root, name, g);
            gs := gs[g := gs[g].(members := gs[g].members + [name])];
          } else {
            AddMemberNew(gs, d, root, name);
            gs := gs + [Group(d, root, [name])];
          }
        }
        j := j + 1;
      }
      assert periods[..j] == periods;
      i := i + 1;
    }
    assert listing[..i] == listing;
  }

  /** The groups of one domain, in order. */
  function InDomain(gs: seq<Group>, d: Domain): (r: seq<Group>)
    ensures forall g :: g in r <==> g in gs && g.domain == d
  {
    if gs == [] then []
    else (if gs[0].domain == d then [gs[0]] else []) + InDomain(gs[1..], d)
  }

  /** The groups in the order they are reduced: by domain, then in discovery order. */
  function ByDomain(gs: seq<Group>): (r: seq<Group>)
    ensures forall g :: g in r <==> g in gs
  {
    InDomain(gs, NodeDomain) + InDomain(gs, LinkDomain) + InDomain(gs, TurnDomain) +
    InDomain(gs, TransitLineDomain) + InDomain(gs, TransitSegmentDomain)
  }

  /** A listing of a scenario's extra attributes: each exactly once, with its domain. */
  ghost predicate IsListing(listing: seq<(string, Domain)>, attrs: Attributes) {
    (forall i :: 0 <= i < |listing| ==> listing[i].0 in attrs && attrs[listing[i].0].domain == listing[i].1) &&
    (forall n :: n in attrs ==> exists i :: 0 <= i < |listing| && listing[i].0 == n) &&
    (forall i, j :: 0 <= i < j < |listing| ==> listing[i].0 != listing[j].0)
  }

  /** Enumerates a scenario's extra attributes (in an order the platform chooses). */
  method ListAttributes(attrs: Attributes) returns (listing: seq<(string, Domain)>)
    ensures IsListing(listing, attrs)
  {
    listing := [];
    var todo := attrs.Keys;
    while todo != {}
      invariant todo <= attrs.Keys
      invariant forall i :: 0 <= i < |listing| ==> listing[i].0 in attrs - todo && attrs[listing[i].0].domain == listing[i].1
      invariant forall n :: n in attrs && n !in todo ==> exists i :: 0 <= i < |listing| && listing[i].0 == n
      invariant forall i, j :: 0 <= i < j < |listing| ==> listing[i].0 != listing[j].0
      decreases todo
    {
      ghost var w := Witness(todo);
      var n :| n in todo;
      ghost var before := listing;
      listing := listing + [(n, attrs[n].domain)];
      todo := todo - {n};
      forall m | m in attrs && m !in todo
        ensures exists i :: 0 <= i < |listing| && listing[i].0 == m
      {
        if m == n {
          assert listing[|before|].0 == m;
        } else {
          var i :| 0 <= i < |before| && before[i].0 == m;
          assert listing[i].0 == m;
        }
      }
    }
  }

  // ----- reducing one group in a period scenario -----

  /** An attribute table and the error that stopped its update, if one did. */
  datatype Step = Step(attrs: Attributes, error: Option<SliceError>)

  /** The values a freshly created attribute holds before any are set (the platform's default fill is not modelled). */
  const NewValues: seq<real> := []

  /** Deletes, in order, every name other than keep; the first absent one stops the deletions. */
  function DeleteAll(attrs: Attributes, names: seq<string>, keep: string): Step
  {
    if names == [] then Step(attrs, None)
    else
      var s := DeleteAll(attrs, names[..|names| - 1], keep);
      var n := names[|names| - 1];
      if s.error.Some? || n == keep then s
      else if n !in s.attrs then Step(s.attrs, Some(AttributeMissing(n)))
      else Step(s.attrs - {n}, None)
  }

  /** The name whose values the period keeps. */
  function Source(g: Group, period: string): string {
    g.root + period
  }

  /**
    One group in one period: the other members are deleted, the canonical
    attribute is created, takes the period attribute's description and values,
    and the period attribute is deleted.  On an error the table is left as the
    failed step found it.
  */
  function ReduceGroup(attrs: Attributes, g: Group, period: string): Step
  {
    var src := Source(g, period);
    var canon := Canonical(g.root);
    var s := DeleteAll(attrs, g.members, src);
    if s.error.Some? then s
    else if canon in s.attrs then Step(s.attrs, Some(AttributeExists(canon)))
    else
      var created := s.attrs[canon := ExtraAttribute(g.domain, "", NewValues)];
      if src !in created then Step(created, Some(AttributeMissing(src)))
      else
        var described := created[canon := created[canon].(description := created[src].description)];
        if described[src].domain != g.domain then Step(described, Some(WrongDomain(src)))
        else Step(described[canon := described[canon].(values := described[src].values)] - {src}, None)
  }

  /** The groups reduced one after the other; the first error stops the rest. */
  function ReduceGroups(attrs: Attributes, gs: seq<Group>, period: string): Step
  {
    if gs == [] then Step(attrs, None)
    else
      var s := ReduceGroups(attrs, gs[..|gs| - 1], period);
      if s.error.Some? then s else ReduceGroup(s.attrs, gs[|gs| - 1], period)
  }

  /** One more group after a prefix that succeeded. */
  lemma ReduceGroupsStep(attrs: Attributes, gs: seq<Group>, period: string, i: nat)
    requires i < |gs|
    requires ReduceGroups(attrs, gs[..i], period).error.None?
    ensures ReduceGroups(attrs, gs[..i + 1], period) == ReduceGroup(ReduceGroups(attrs, gs[..i], period).attrs, gs[i], period)
  {
    assert gs[..i + 1][..i] == gs[..i];
  }

  /** Once a prefix of the groups fails, the whole sequence fails the same way. */
  lemma {:induction false} ReduceGroupsStops(attrs: Attributes, gs: seq<Group>, period: string, i: nat)
    requires i <= |gs|
    requires ReduceGroups(attrs, gs[..i], period).error.Some?
    ensures ReduceGroups(attrs, gs, period) == ReduceGroups(attrs, gs[..i], period)
  {
    if i < |gs| {
      assert gs[..|gs| - 1][..i] == gs[..i];
      ReduceGroupsStops(attrs, gs[..|gs| - 1], period, i);
    } else {
      assert gs[..i] == gs;
    }
  }

  /**
    The deletions succeed exactly when every name other than keep is present and
    named once, and then exactly those names are gone and nothing else changes.
  */
  lemma {:induction false} DeleteAllEffect(attrs: Attributes, names: seq<string>, keep: string)
    ensures DeleteAll(attrs, names, keep).error.None? <==>
      (forall i :: 0 <= i < |names| && names[i] != keep ==> names[i] in attrs) &&
      (forall i, j :: 0 <= i < j < |names| && names[i] != keep ==> names[i] != names[j])
    ensures DeleteAll(attrs, names, keep).error.None? ==>
      DeleteAll(attrs, names, keep).attrs == attrs - (set i | 0 <= i < |names| && names[i] != keep :: names[i])
  {
    if names != [] {
      var init := names[..|names| - 1];
      var n := names[|names| - 1];
      DeleteAllEffect(attrs, init, keep);
      var gone := set i | 0 <= i < |init| && init[i] != keep :: init[i];
      var gone' := set i | 0 <= i < |names| && names[i] != keep :: names[i];
      assert forall i :: 0 <= i < |init| ==> init[i] == names[i];
      if n == keep {
        assert gone' == gone;
      } else {
        assert gone' == gone + {n};
        if n in gone {
          var i :| 0 <= i < |init| && init[i] != keep && init[i] == n;
          assert names[i] == names[|names| - 1];
        }
      }
    }
  }

  /**
    What a successful reduction does for a non-empty period name: the period
    attribute was present in the group's domain; the canonical attribute now
    carries its description and values; the period attribute and every other
    member are gone; every other attribute is untouched.
  */
  lemma ReduceGroupEffect(attrs: Attributes, g: Group, period: string)
    requires period != []
    requires ReduceGroup(attrs, g, period).error.None?
    ensures Reduced(attrs, g, period, ReduceGroup(attrs, g, period).attrs)
    ensures forall n :: n !in Touched(g, period) ==>
      (n in ReduceGroup(attrs, g, period).attrs <==> n in attrs) &&
      (n in attrs ==> ReduceGroup(attrs, g, period).attrs[n] == attrs[n])
  {
    CanonicalShorter(g.root);
    DeleteAllEffect(attrs, g.members, Source(g, period));
  }

  /** The names one group's reduction can touch. */
  function Touched(g: Group, period: string): (t: set<string>)
    ensures Source(g, period) in t && Canonical(g.root) in t
    ensures forall m :: m in g.members ==> m in t
  {
    (set m | m in g.members) + {Source(g, period), Canonical(g.root)}
  }

  /** out holds the period's view of group g, as reduced from attrs. */
  ghost predicate Reduced(attrs: Attributes, g: Group, period: string, out: Attributes) {
    var src := Source(g, period);
    var canon := Canonical(g.root);
    src in attrs && attrs[src].domain == g.domain &&
    canon in out && out[canon] == ExtraAttribute(g.domain, attrs[src].description, attrs[src].values) &&
    src !in out &&
    forall m :: m in g.members && m != canon ==> m !in out
  }

  /** No two groups touch a common name in this period. */
  ghost predicate Separate(gs: seq<Group>, period: string) {
    forall i, j :: 0 <= i < j < |gs| ==> Touched(gs[i], period) !! Touched(gs[j], period)
  }

  /** Reducing groups leaves every name no group touches as it was. */
  lemma {:induction false} ReduceGroupsFrame(attrs: Attributes, gs: seq<Group>, period: string, n: string)
    requires period != []
    requires ReduceGroups(attrs, gs, period).error.None?
    requires forall i :: 0 <= i < |gs| ==> n !in Touched(gs[i], period)
    ensures n in ReduceGroups(attrs, gs, period).attrs <==> n in attrs
    ensures n in attrs ==> ReduceGroups(attrs, gs, period).attrs[n] == attrs[n]
  {
    if gs != [] {
      var init := gs[..|gs| - 1];
      ReduceGroupsFrame(attrs, init, period, n);
      ReduceGroupEffect(ReduceGroups(attrs, init, period).attrs, gs[|gs| - 1], period);
    }
  }

  /**
    When the groups touch disjoint names and the period's reduction succeeds,
    every group ends reduced: its canonical attribute holds the reference's
    period values and description, and none of its period attributes remain.
  */
  lemma {:induction false} SliceComplete(attrs: Attributes, gs: seq<Group>, period: string)
    requires period != []
    requires Separate(gs, period)
    requires ReduceGroups(attrs, gs, period).error.None?
    ensures forall i :: 0 <= i < |gs| ==> Reduced(attrs, gs[i], period, ReduceGroups(attrs, gs, period).attrs)
  {
    if gs != [] {
      var init := gs[..|gs| - 1];
      var last := gs[|gs| - 1];
      var mid := ReduceGroups(attrs, init, period).attrs;
      var out := ReduceGroups(attrs, gs, period).attrs;
      SliceComplete(attrs, init, period);
      ReduceGroupEffect(mid, last, period);
      forall i | 0 <= i < |gs|
        ensures Reduced(attrs, gs[i], period, out)
      {
        if i < |init| {
          var src := Source(gs[i], period);
          var canon := Canonical(gs[i].root);
          assert Touched(gs[i], period) !! Touched(last, period);
          assert Reduced(attrs, init[i], period, mid);
          forall m | m in gs[i].members && m != canon
            ensures m !in out
          {
            assert m in Touched(gs[i], period);
          }
        } else {
          forall j | 0 <= j < |init|
            ensures Source(last, period) !in Touched(init[j], period)
          {
            assert Touched(gs[j], period) !! Touched(last, period);
          }
          ReduceGroupsFrame(attrs, init, period, Source(last, period));
        }
      }
    }
  }

  /** Reduces one group on an attribute table, deleting the other members one by one. */
  method ReduceGroupOn(attrs: Attributes, g: Group, period: string) returns (s: Step)
    ensures s == ReduceGroup(attrs, g, period)
  {
    var src := g.root + period;
    var canon := Canonical(g.root);
    var table := attrs;
    var i := 0;
    while i < |g.members|
      invariant 0 <= i <= |g.members|
      invariant DeleteAll(attrs, g.members[..i], src) == Step(table, None)
    {
      assert g.members[..i + 1][..i] == g.members[..i];
      var n := g.members[i];
      if n != src {
        if n !in table {
          s := Step(table, Some(AttributeMissing(n)));
          ReduceGroupDeleteFails(attrs, g, period, i);
          return;
        }
        table := table - {n};
      }
      i := i + 1;
    }
    assert g.members[..i] == g.members;
    if canon in table {
      return Step(table, Some(AttributeExists(canon)));
    }
    table := table[canon := ExtraAttribute(g.domain, "", NewValues)];
    if src !in table {
      return Step(table, Some(AttributeMissing(src)));
    }
    table := table[canon := table[canon].(description := table[src].description)];
    if table[src].domain != g.domain {
      return Step(table, Some(WrongDomain(src)));
    }
    var values := table[src].values;
    table := table[canon := table[canon].(values := values)];
    table := table - {src};
    s := Step(table, None);
  }

  /** A deletion that fails part-way is the group's outcome. */
  lemma {:induction false} ReduceGroupDeleteFails(attrs: Attributes, g: Group, period: string, i: nat)
    requires i < |g.members|
    requires DeleteAll(attrs, g.members[..i], Source(g, period)).error.None?
    requires g.members[i] != Source(g, period)
    requires g.members[i] !in DeleteAll(attrs, g.members[..i], Source(g, period)).attrs
    ensures ReduceGroup(attrs, g, period) ==
      Step(DeleteAll(attrs, g.members[..i], Source(g, period)).attrs, Some(AttributeMissing(g.members[i])))
  {
    assert g.members[..i + 1][..i] == g.members[..i];
    DeleteAllFails(attrs, g.members, Source(g, period), i + 1);
  }

  /** Once a prefix of the deletions fails, the whole sequence fails the same way. */
  lemma {:induction false} DeleteAllFails(attrs: Attributes, names: seq<string>, keep: string, i: nat)
    requires i <= |names|
    requires DeleteAll(attrs, names[..i], keep).error.Some?
    ensures DeleteAll(attrs, names, keep) == DeleteAll(attrs, names[..i], keep)
  {
    if i < |names| {
      assert names[..|names| - 1][..i] == names[..i];
      DeleteAllFails(attrs, names[..|names| - 1], keep, i);
    } else {
      assert names[..i] == names;
    }
  }

  // ----- the attributes every reference scenario must carry -----

  /** The link attributes the highway passes write. */
  const AutoLinkAttributes: seq<string> := ["@area_type", "@capclass", "@free_flow_speed", "@free_flow_time"]

  /** The link attributes the transit preparation writes. */
  const TransitLinkAttributes: seq<string> := ["@trantime"] + AutoLinkAttributes

  /** Creates, in domain d, every named attribute the table lacks; existing ones are kept as they are. */
  method EnsureAttributes(attrs: Attributes, d: Domain, names: seq<string>) returns (r: Attributes)
    ensures forall n :: n in r <==> n in attrs || n in names
    ensures forall n :: n in attrs ==> r[n] == attrs[n]
    ensures forall n :: n in names && n !in attrs ==> r[n] == ExtraAttribute(d, "", NewValues)
  {
    r := attrs;
    for i := 0 to |names|
      invariant forall n :: n in r <==> n in attrs || n in names[..i]
      invariant forall n :: n in attrs ==> r[n] == attrs[n]
      invariant forall n :: n in names[..i] && n !in attrs ==> r[n] == ExtraAttribute(d, "", NewValues)
    {
      assert names[..i + 1] == names[..i] + [names[i]];
      if names[i] !in r {
        r := r[names[i] := ExtraAttribute(d, "", NewValues)];
      }
    }
    assert names[..|names|] == names;
  }

  /**
    The reference scenario's link attributes, created where missing: the ones
    the highway passes write or, for transit, those and the transit time.
  */
  method EnsureReferenceAttributes(attrs: Attributes, transit: bool) returns (r: Attributes)
    ensures forall n :: n in AutoLinkAttributes ==> n in r
    ensures transit ==> "@trantime" in r
    ensures forall n :: n in r <==> n in attrs || n in (if transit then TransitLinkAttributes else AutoLinkAttributes)
    ensures forall n :: n in attrs ==> r[n] == attrs[n]
    ensures forall n :: n in r && n !in attrs ==> r[n] == ExtraAttribute(LinkDomain, "", NewValues)
  {
    var names := if transit then TransitLinkAttributes else AutoLinkAttributes;
    r := EnsureAttributes(attrs, LinkDomain, names);
    assert forall n :: n in AutoLinkAttributes ==> n in TransitLinkAttributes;
    assert "@trantime" in TransitLinkAttributes;
  }

  // ----- the scenario bank -----

  /** The scenario a period's slot holds once the period is prepared, with the outcome. */
  function Sliced(ref: Scenario, ordered: seq<Group>, p: Period): (Scenario, Option<SliceError>)
  {
    var st := ReduceGroups(ref.attrs, ordered, p.name);
    (Scenario(Title(p.name, ref.title), st.attrs, ref.net), st.error)
  }

  /** The scenario slots after the periods have been prepared in order from ref. */
  function SlicedBank(bank: map<int, Scenario>, ref: Scenario, ordered: seq<Group>, periods: seq<Period>): (r: map<int, Scenario>)
    ensures forall id :: id in r <==> id in bank || IsSlot(periods, id)
    ensures forall id :: id in bank && !IsSlot(periods, id) ==> r[id] == bank[id]
  {
    if periods == [] then bank
    else
      var p := periods[|periods| - 1];
      SlicedBank(bank, ref, ordered, periods[..|periods| - 1])[p.scenarioId := Sliced(ref, ordered, p).0]
  }

  /** Whether id is the scenario slot of one of the periods. */
  predicate IsSlot(periods: seq<Period>, id: int) {
    exists k :: 0 <= k < |periods| && periods[k].scenarioId == id
  }

  /** Each slot ends up holding the slice of the last period that uses it. */
  lemma {:induction false} SlicedBankSlot(bank: map<int, Scenario>, ref: Scenario, ordered: seq<Group>, periods: seq<Period>, k: nat)
    requires k < |periods|
    requires forall m :: k < m < |periods| ==> periods[m].scenarioId != periods[k].scenarioId
    ensures SlicedBank(bank, ref, ordered, periods)[periods[k].scenarioId] == Sliced(ref, ordered, periods[k]).0
  {
    if k < |periods| - 1 {
      var init := periods[..|periods| - 1];
      SlicedBankSlot(bank, ref, ordered, init, k);
    }
  }

  /** No period slot is the reference and every period's reduction succeeds. */
  predicate PeriodsOk(ref: Scenario, refId: int, ordered: seq<Group>, periods: seq<Period>) {
    forall k :: 0 <= k < |periods| ==>
      periods[k].scenarioId != refId && Sliced(ref, ordered, periods[k]).1.None?
  }

  /** A scenario database, holding scenarios by number. */
  class Emmebank {
    var scenarios: map<int, Scenario>

    constructor (scenarios0: map<int, Scenario>)
      ensures scenarios == scenarios0
    {
      scenarios := scenarios0;
    }

    /** Replaces slot p.scenarioId by a copy of ref titled for the period. */
    method CopyForPeriod(ref: Scenario, p: Period)
      modifies this
      ensures scenarios == old(scenarios)[p.scenarioId := ref.(title := Title(p.name, ref.title))]
    {
      if p.scenarioId in scenarios {
        scenarios := scenarios - {p.scenarioId};
      }
      scenarios := scenarios[p.scenarioId := ref];
      scenarios := scenarios[p.scenarioId := scenarios[p.scenarioId].(title := Title(p.name, ref.title))];
    }

    /** Reduces the groups, in order, in scenario id; the first error stops the rest. */
    method ReducePeriod(id: int, ordered: seq<Group>, period: string) returns (err: Option<SliceError>)
      requires id in scenarios
      modifies this
      ensures err == ReduceGroups(old(scenarios[id].attrs), ordered, period).error
      ensures scenarios == old(scenarios)[id := old(scenarios[id]).(attrs := ReduceGroups(old(scenarios[id].attrs), ordered, period).attrs)]
    {
      ghost var a0 := scenarios[id].attrs;
      var attrs := scenarios[id].attrs;
      var i := 0;
      while i < |ordered|
        invariant 0 <= i <= |ordered|
        invariant ReduceGroups(a0, ordered[..i], period) == Step(attrs, None)
        invariant scenarios == old(scenarios)[id := old(scenarios[id]).(attrs := attrs)]
      {
        ReduceGroupsStep(a0, ordered, period, i);
        var st := ReduceGroupOn(attrs, ordered[i], period);
        attrs := st.attrs;
        scenarios := scenarios[id := scenarios[id].(attrs := attrs)];
        if st.error.Some? {
          ReduceGroupsStops(a0, ordered, period, i + 1);
          return st.error;
        }
        i := i + 1;
      }
      assert ordered[..i] == ordered;
      err := None;
    }

    /** Prepares one period's slot from ref, the reference held in slot refId. */
    method PreparePeriod(ref: Scenario, refId: int, ordered: seq<Group>, p: Period) returns (err: Option<SliceError>)
      requires refId in scenarios && scenarios[refId] == ref
      modifies this
      ensures err.None? <==> p.scenarioId != refId && Sliced(ref, ordered, p).1.None?
      ensures err.None? ==> scenarios == old(scenarios)[p.scenarioId := Sliced(ref, ordered, p).0]
      ensures forall id :: id in scenarios ==> id in old(scenarios) || id == p.scenarioId
      ensures forall id :: id in old(scenarios) && id != p.scenarioId ==> id in scenarios && scenarios[id] == old(scenarios[id])
    {
      if p.scenarioId == refId {
        scenarios := scenarios - {refId};
        return Some(ReferenceDeleted(refId));
      }
      CopyForPeriod(ref, p);
      err := ReducePeriod(p.scenarioId, ordered, p.name);
    }

    /**
      Prepares every period's scenario from the reference scenario refId: the
      time-of-day attribute groups are discovered on the reference, then each
      period's slot is replaced by a copy of the reference in which every group
      is reduced to the period's values.
    */
    method PrepareScenariosAndAttributes(refId: int, periods: seq<Period>)
      returns (err: Option<SliceError>, listing: seq<(string, Domain)>)
      modifies this
      ensures refId !in old(scenarios) ==> err == Some(NoReferenceScenario) && scenarios == old(scenarios)
      ensures refId in old(scenarios) ==> IsListing(listing, old(scenarios[refId]).attrs)
      ensures refId in old(scenarios) ==>
        (err.None? <==> PeriodsOk(old(scenarios[refId]), refId, ByDomain(Discover(listing, periods)), periods))
      ensures err.None? ==>
        scenarios == SlicedBank(old(scenarios), old(scenarios[refId]), ByDomain(Discover(listing, periods)), periods)
      ensures forall id :: id in scenarios ==> id in old(scenarios) || IsSlot(periods, id)
      ensures forall id :: id in old(scenarios) && !IsSlot(periods, id) ==> id in scenarios && scenarios[id] == old(scenarios[id])
    {
      listing := [];
      if refId !in scenarios {
        return Some(NoReferenceScenario), listing;
      }
      var ref := scenarios[refId];
      listing := ListAttributes(ref.attrs);
      var gs := DiscoverGroups(listing, periods);
      var ordered := ByDomain(gs);
      var i := 0;
      while i < |periods|
        invariant 0 <= i <= |periods|
        invariant refId in scenarios && scenarios[refId] == ref
        invariant PeriodsOk(ref, refId, ordered, periods[..i])
        invariant scenarios == SlicedBank(old(scenarios), ref, ordered, periods[..i])
      {
        var p := periods[i];
        assert periods[..i + 1][..i] == periods[..i];
        assert IsSlot(periods, p.scenarioId);
        err := PreparePeriod(ref, refId, ordered, p);
        if err.Some? {
          assert !PeriodsOk(ref, refId, ordered, periods) by {
            PeriodsOkPrefix(ref, refId, ordered, periods, i);
          }
          SlotPrefix(periods, i);
          return;
        }
        PeriodsOkExtend(ref, refId, ordered, periods, i);
        SlotPrefix(periods, i + 1);
        i := i + 1;
      }
      assert periods[..i] == periods;
      err := None;
    }

    /**
      Removes from each period's scenario, in period order, the transit lines of
      other periods; a period whose scenario is absent stops the pass and is
      reported.
    */
    method RemoveOtherPeriodLines(periods: seq<Period>) returns (missing: Option<int>)
      modifies this
      ensures missing.None? <==> SlotsPresent(old(scenarios), periods)
      ensures missing.None? ==> scenarios == PrunedBank(old(scenarios), periods)
      ensures missing.Some? ==> exists k :: (0 <= k < |periods| && periods[k].scenarioId == missing.value &&
        missing.value !in old(scenarios) && SlotsPresent(old(scenarios), periods[..k]) &&
        scenarios == PrunedBank(old(scenarios), periods[..k]))
    {
      ghost var bank := scenarios;
      var i := 0;
      while i < |periods|
        invariant 0 <= i <= |periods|
        invariant SlotsPresent(bank, periods[..i])
        invariant scenarios == PrunedBank(bank, periods[..i])
      {
        var p := periods[i];
        if p.scenarioId !in scenarios {
          SlotMissing(bank, periods, i);
          return Some(p.scenarioId);
        }
        PrunedBankStep(bank, periods, i);
        var s := scenarios[p.scenarioId];
        var lines := Transit.RemoveOtherPeriodLines(s.net.lines, p.name);
        scenarios := scenarios[p.scenarioId := s.(net := s.net.(lines := lines))];
        i := i + 1;
      }
      assert periods[..i] == periods;
      missing := None;
    }
  }

  /** One more period prunes its slot, which is present. */
  lemma PrunedBankStep(bank: map<int, Scenario>, periods: seq<Period>, i: nat)
    requires i < |periods|
    requires SlotsPresent(bank, periods[..i]) && periods[i].scenarioId in bank
    ensures SlotsPresent(bank, periods[..i + 1])
    ensures PrunedBank(bank, periods[..i + 1]) ==
      PrunedBank(bank, periods[..i])[periods[i].scenarioId := PrunedScenario(PrunedBank(bank, periods[..i])[periods[i].scenarioId], periods[i].name)]
  {
    assert periods[..i + 1][..i] == periods[..i];
  }

  /** A period whose slot is absent leaves the slots not all present. */
  lemma SlotMissing(bank: map<int, Scenario>, periods: seq<Period>, i: nat)
    requires i < |periods| && periods[i].scenarioId !in bank
    ensures !SlotsPresent(bank, periods)
  {
  }

  /** PeriodsOk on all periods requires it of period i. */
  lemma PeriodsOkPrefix(ref: Scenario, refId: int, ordered: seq<Group>, periods: seq<Period>, i: nat)
    requires i < |periods|
    requires !(periods[i].scenarioId != refId && Sliced(ref, ordered, periods[i]).1.None?)
    ensures !PeriodsOk(ref, refId, ordered, periods)
  {
  }

  /** PeriodsOk grows by one period that is fine. */
  lemma PeriodsOkExtend(ref: Scenario, refId: int, ordered: seq<Group>, periods: seq<Period>, i: nat)
    requires i < |periods|
    requires PeriodsOk(ref, refId, ordered, periods[..i])
    requires periods[i].scenarioId != refId && Sliced(ref, ordered, periods[i]).1.None?
    ensures PeriodsOk(ref, refId, ordered, periods[..i + 1])
  {
    assert forall k :: 0 <= k < i ==> periods[..i][k] == periods[..i + 1][k];
  }

  /** A slot of some of the periods is a slot of all of them. */
  lemma SlotPrefix(periods: seq<Period>, i: nat)
    requires i <= |periods|
    ensures forall id :: IsSlot(periods[..i], id) ==> IsSlot(periods, id)
  {
    forall id | IsSlot(periods[..i], id)
      ensures IsSlot(periods, id)
    {
      var k :| 0 <= k < i && periods[..i][k].scenarioId == id;
      assert periods[k].scenarioId == id;
    }
  }

  // ----- prepared period scenarios -----

  /**
    With each period in its own slot and the groups touching disjoint names,
    a successful preparation leaves in each period's slot the reference network
    under the period's title, with every time-of-day group reduced to the
    period's values.
  */
  lemma PreparedSlot(bank: map<int, Scenario>, ref: Scenario, refId: int, ordered: seq<Group>, periods: seq<Period>, k: nat)
    requires k < |periods| && periods[k].name != []
    requires forall m :: 0 <= m < |periods| && m != k ==> periods[m].scenarioId != periods[k].scenarioId
    requires PeriodsOk(ref, refId, ordered, periods)
    requires Separate(ordered, periods[k].name)
    ensures var s := SlicedBank(bank, ref, ordered, periods)[periods[k].scenarioId];
      s.net == ref.net && s.title == Title(periods[k].name, ref.title) &&
      forall g :: 0 <= g < |ordered| ==> Reduced(ref.attrs, ordered[g], periods[k].name, s.attrs)
  {
    SlicedBankSlot(bank, ref, ordered, periods, k);
    SliceComplete(ref.attrs, ordered, periods[k].name);
  }

  // ----- lines of other periods -----

  /** A scenario keeping only the transit lines of the period. */
  function PrunedScenario(s: Scenario, period: string): (p: Scenario)
    ensures p.title == s.title && p.attrs == s.attrs
    ensures p.net.nodes == s.net.nodes && p.net.links == s.net.links
    ensures p.net.modes == s.net.modes && p.net.vehicles == s.net.vehicles
    ensures forall l :: l in p.net.lines <==> l in s.net.lines && Ascii.Upper(l.timePeriod) == Ascii.Upper(period)
  {
    s.(net := s.net.(lines := Transit.PeriodLines(s.net.lines, period)))
  }

  /** The bank once each period's scenario, in order, has lost the lines of other periods. */
  function PrunedBank(bank: map<int, Scenario>, periods: seq<Period>): (r: map<int, Scenario>)
    ensures r.Keys == bank.Keys
    ensures forall id :: id in bank && !IsSlot(periods, id) ==> r[id] == bank[id]
  {
    if periods == [] then bank
    else
      var prev := PrunedBank(bank, periods[..|periods| - 1]);
      var p := periods[|periods| - 1];
      if p.scenarioId in prev then prev[p.scenarioId := PrunedScenario(prev[p.scenarioId], p.name)] else prev
  }

  /** A slot that one period alone uses keeps exactly that period's lines. */
  lemma {:induction false} PrunedSlot(bank: map<int, Scenario>, periods: seq<Period>, k: nat)
    requires k < |periods| && periods[k].scenarioId in bank
    requires forall m :: 0 <= m < |periods| && m != k ==> periods[m].scenarioId != periods[k].scenarioId
    ensures PrunedBank(bank, periods)[periods[k].scenarioId] == PrunedScenario(bank[periods[k].scenarioId], periods[k].name)
  {
    var id := periods[k].scenarioId;
    var init := periods[..|periods| - 1];
    if k < |periods| - 1 {
      PrunedSlot(bank, init, k);
    } else {
      assert !IsSlot(init, id);
    }
  }

  /**
    The scenario a transit period ends with: its slot, prepared from the
    reference and then pruned, holds the reference network's lines of that
    period, in their order, and the period's reduced attributes.
  */
  lemma TransitPeriodScenario(bank: map<int, Scenario>, ref: Scenario, refId: int, ordered: seq<Group>, periods: seq<Period>, k: nat)
    requires k < |periods|
    requires forall m :: 0 <= m < |periods| && m != k ==> periods[m].scenarioId != periods[k].scenarioId
    ensures var s := PrunedBank(SlicedBank(bank, ref, ordered, periods), periods)[periods[k].scenarioId];
      s.title == Title(periods[k].name, ref.title) &&
      s.attrs == ReduceGroups(ref.attrs, ordered, periods[k].name).attrs &&
      s.net == ref.net.(lines := Transit.PeriodLines(ref.net.lines, periods[k].name))
  {
    var sliced := SlicedBank(bank, ref, ordered, periods);
    assert IsSlot(periods, periods[k].scenarioId);
    SlicedBankSlot(bank, ref, ordered, periods, k);
    PrunedSlot(sliced, periods, k);
  }

  /** Every period's slot is in the bank. */
  predicate SlotsPresent(bank: map<int, Scenario>, periods: seq<Period>) {
    forall k :: 0 <= k < |periods| ==> periods[k].scenarioId in bank
  }
}
