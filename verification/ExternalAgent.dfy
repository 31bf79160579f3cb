/** Checked-in agent configuration: resource scopes that must not overlap (external_agent.rs). */
module ExternalAgent {
  import opened Wrappers

  /** Only identity and the nil value matter. */
  type Uuid = nat

  const NIL: Uuid := 0

  const CONFIG_SCHEMA_VERSION: nat := 1
  const MAX_SCOPES: nat := 16
  const MAX_CONNECTIONS: nat := 32
  const MAX_SOURCES: nat := 100

  datatype Provider = Codex | Claude

  datatype Scope = Scope(
    projectEnvironmentId: Uuid, authorityConnectionId: Uuid, connectionIds: seq<Uuid>, sourceIds: seq<Uuid>)

  datatype Config = Config(
    schemaVersion: nat, provider: Provider, projectId: Uuid, anchorConnectionId: Uuid, resourceScopes: seq<Scope>,
    writeConnectionId: Option<Uuid>)

  /** `collect::<BTreeSet<_>>()`. */
  function Elements<T>(s: seq<T>): set<T> { set x | x in s }

  predicate NoneNil(ids: seq<Uuid>) { forall i | 0 <= i < |ids| :: ids[i] != NIL }

  /** `ExternalAgentResourceScope::validate`. */
  predicate ScopeAccepted(s: Scope)
  {
    && s.projectEnvironmentId != NIL && s.authorityConnectionId != NIL
    && (s.connectionIds != [] || s.sourceIds != [])
    && |s.connectionIds| <= MAX_CONNECTIONS && |s.sourceIds| <= MAX_SOURCES
    && NoneNil(s.connectionIds) && NoneNil(s.sourceIds)
    && |Elements(s.connectionIds)| == |s.connectionIds|
    && |Elements(s.sourceIds)| == |s.sourceIds|
  }

  function Environments(scopes: seq<Scope>): seq<Uuid>
  {
    if scopes == [] then [] else [scopes[0].projectEnvironmentId] + Environments(scopes[1..])
  }

  /** All connection lists, one after the other. */
  function Connections(scopes: seq<Scope>): seq<Uuid>
  {
    if scopes == [] then [] else scopes[0].connectionIds + Connections(scopes[1..])
  }

  function Sources(scopes: seq<Scope>): seq<Uuid>
  {
    if scopes == [] then [] else scopes[0].sourceIds + Sources(scopes[1..])
  }

  function ResourceCount(scopes: seq<Scope>): nat
  {
    if scopes == [] then 0
    else |scopes[0].connectionIds| + |scopes[0].sourceIds| + ResourceCount(scopes[1..])
  }

  predicate AnchorKnown(c: Config)
  {
    || c.anchorConnectionId in Elements(Connections(c.resourceScopes))
    || exists i | 0 <= i < |c.resourceScopes| :: c.resourceScopes[i].authorityConnectionId == c.anchorConnectionId
  }

  /** `ExternalAgentConfig::validate`. */
  predicate Accepted(c: Config)
  {
    var scopes := c.resourceScopes;
    && c.schemaVersion == CONFIG_SCHEMA_VERSION && c.projectId != NIL && c.anchorConnectionId != NIL
    && 1 <= |scopes| <= MAX_SCOPES && (forall i | 0 <= i < |scopes| :: ScopeAccepted(scopes[i]))
    && |Elements(Environments(scopes))| == |scopes|
    && |Elements(Connections(scopes))| <= MAX_CONNECTIONS
    && |Elements(Sources(scopes))| <= MAX_SOURCES
    && |Elements(Connections(scopes))| + |Elements(Sources(scopes))| == ResourceCount(scopes)
    && AnchorKnown(c)
    && (c.writeConnectionId.None? || c.writeConnectionId.value in Elements(Connections(scopes)))
  }

  // ---- Counting a list's elements tells whether it repeats any ----

  predicate NoRepeats<T(==)>(s: seq<T>)
  {
    forall i, j | 0 <= i < j < |s| :: s[i] != s[j]
  }

  predicate Disjoint<T(==)>(a: seq<T>, b: seq<T>)
  {
    forall i, j | 0 <= i < |a| && 0 <= j < |b| :: a[i] != b[j]
  }

  lemma {:induction false} ElementsCount<T>(s: seq<T>)
    ensures |Elements(s)| <= |s|
    ensures |Elements(s)| == |s| <==> NoRepeats(s)
  {
    if s != [] {
      var rest := s[1..];
      ElementsCount(rest);
      assert s == [s[0]] + rest;
      if s[0] in rest {
        var k :| 0 <= k < |rest| && rest[k] == s[0];
        assert s[0] == s[k + 1];
        assert Elements(s) == Elements(rest);
      } else {
        assert Elements(s) == Elements(rest) + {s[0]};
        HeadIsNew(s);
      }
    }
  }

  lemma HeadIsNew<T>(s: seq<T>)
    requires s != [] && s[0] !in s[1..]
    ensures NoRepeats(s) <==> NoRepeats(s[1..])
  {
    var rest := s[1..];
    assert forall k | 0 <= k < |rest| :: rest[k] == s[k + 1] && rest[k] != s[0];
    if NoRepeats(rest) {
      forall i, j | 0 <= i < j < |s| ensures s[i] != s[j] {
        assert s[j] == rest[j - 1];
        if i > 0 { assert s[i] == rest[i - 1]; }
      }
    }
  }

  lemma ConcatNoRepeats<T>(a: seq<T>, b: seq<T>)
    ensures NoRepeats(a + b) <==> NoRepeats(a) && NoRepeats(b) && Disjoint(a, b)
  {
    var s := a + b;
    assert forall i | 0 <= i < |a| :: a[i] == s[i];
    assert forall j | 0 <= j < |b| :: b[j] == s[|a| + j];
    if NoRepeats(a) && NoRepeats(b) && Disjoint(a, b) {
      forall i, j | 0 <= i < j < |s| ensures s[i] != s[j] {
        if j < |a| {
        } else if i >= |a| {
          assert b[i - |a|] != b[j - |a|];
        } else {
          assert a[i] != b[j - |a|];
        }
      }
    }
  }

  /** The lists of each scope, for one kind of resource. */
  function Lists(scopes: seq<Scope>, sources: bool): seq<seq<Uuid>>
  {
    if scopes == [] then []
    else [if sources then scopes[0].sourceIds else scopes[0].connectionIds] + Lists(scopes[1..], sources)
  }

  function Flat<T>(lists: seq<seq<T>>): seq<T>
  {
    if lists == [] then [] else lists[0] + Flat(lists[1..])
  }

  predicate Separate<T(==)>(lists: seq<seq<T>>)
  {
    && (forall i | 0 <= i < |lists| :: NoRepeats(lists[i]))
    && (forall i, j | 0 <= i < j < |lists| :: Disjoint(lists[i], lists[j]))
  }

  lemma {:induction false} DisjointFlat<T>(a: seq<T>, lists: seq<seq<T>>)
    ensures Disjoint(a, Flat(lists)) <==> forall j | 0 <= j < |lists| :: Disjoint(a, lists[j])
  {
    if lists != [] {
      var rest := lists[1..];
      DisjointFlat(a, rest);
      DisjointConcat(a, lists[0], Flat(rest));
      assert forall j | 0 <= j < |rest| :: rest[j] == lists[j + 1];
      assert forall j | 1 <= j < |lists| :: lists[j] == rest[j - 1];
    }
  }

  lemma DisjointConcat<T>(a: seq<T>, b: seq<T>, c: seq<T>)
    ensures Disjoint(a, b + c) <==> Disjoint(a, b) && Disjoint(a, c)
  {
    var s := b + c;
    assert forall j | 0 <= j < |b| :: b[j] == s[j];
    assert forall j | 0 <= j < |c| :: c[j] == s[|b| + j];
    assert forall j | |b| <= j < |s| :: s[j] == c[j - |b|];
  }

  /** A concatenation repeats nothing exactly when no list does and no two lists share anything. */
  lemma {:induction false} FlatNoRepeats<T>(lists: seq<seq<T>>)
    ensures NoRepeats(Flat(lists)) <==> Separate(lists)
  {
    hide NoRepeats, Disjoint;
    if lists == [] {
      EmptyNoRepeats<T>();
    } else {
      var rest := lists[1..];
      FlatNoRepeats(rest);
      ConcatNoRepeats(lists[0], Flat(rest));
      DisjointFlat(lists[0], rest);
      assert forall j | 0 <= j < |rest| :: rest[j] == lists[j + 1];
      assert forall j | 1 <= j < |lists| :: lists[j] == rest[j - 1];
    }
  }

  lemma EmptyNoRepeats<T>()
    ensures NoRepeats<T>([])
  {
  }

  lemma {:induction false} ListsAgree(scopes: seq<Scope>)
    ensures Flat(Lists(scopes, false)) == Connections(scopes)
    ensures Flat(Lists(scopes, true)) == Sources(scopes)
    ensures ResourceCount(scopes) == |Connections(scopes)| + |Sources(scopes)|
    ensures |Environments(scopes)| == |scopes|
  {
    if scopes != [] {
      ListsAgree(scopes[1..]);
      var c, s := Lists(scopes, false), Lists(scopes, true);
      assert c[1..] == Lists(scopes[1..], false) && s[1..] == Lists(scopes[1..], true);
    }
  }

  // ---- What an accepted configuration means ----

  ghost predicate ScopeWellFormed(s: Scope)
  {
    && s.projectEnvironmentId != 0 && s.authorityConnectionId != 0
    && (s.connectionIds != [] || s.sourceIds != [])
    && 0 !in s.connectionIds && 0 !in s.sourceIds
  }

  /** How many scopes hold a connection. */
  function Holders(scopes: seq<Scope>, id: Uuid): nat
  {
    if scopes == [] then 0 else (if id in scopes[0].connectionIds then 1 else 0) + Holders(scopes[1..], id)
  }

  /** The anchor connection is listed in some scope, or is the authority of one. */
  predicate AnchorListed(c: Config)
  {
    exists i | 0 <= i < |c.resourceScopes| ::
      c.anchorConnectionId in c.resourceScopes[i].connectionIds
      || c.anchorConnectionId == c.resourceScopes[i].authorityConnectionId
  }

  lemma {:induction false} ConnectionListed(scopes: seq<Scope>, id: Uuid)
    ensures id in Connections(scopes) <==> exists i | 0 <= i < |scopes| :: id in scopes[i].connectionIds
  {
    if scopes != [] {
      ConnectionListed(scopes[1..], id);
      assert forall i | 1 <= i < |scopes| :: scopes[i] == scopes[1..][i - 1];
      assert forall i | 0 <= i < |scopes| - 1 :: scopes[1..][i] == scopes[i + 1];
    }
  }

  lemma AnchorsAgree(c: Config)
    ensures AnchorKnown(c) <==> AnchorListed(c)
  {
    ConnectionListed(c.resourceScopes, c.anchorConnectionId);
    hide Connections;
  }

  lemma {:induction false} EnvironmentAt(scopes: seq<Scope>)
    ensures |Environments(scopes)| == |scopes|
    ensures forall i | 0 <= i < |scopes| :: Environments(scopes)[i] == scopes[i].projectEnvironmentId
  {
    if scopes != [] {
      EnvironmentAt(scopes[1..]);
      assert forall i | 1 <= i < |scopes| :: scopes[i] == scopes[1..][i - 1];
    }
  }

  lemma EnvironmentsDiffer(scopes: seq<Scope>)
    ensures NoRepeats(Environments(scopes))
       <==> forall i, j | 0 <= i < j < |scopes| :: scopes[i].projectEnvironmentId != scopes[j].projectEnvironmentId
  {
    EnvironmentAt(scopes);
    hide Environments;
    if forall i, j | 0 <= i < j < |scopes| :: scopes[i].projectEnvironmentId != scopes[j].projectEnvironmentId {
      forall i, j | 0 <= i < j < |scopes| ensures Environments(scopes)[i] != Environments(scopes)[j] {
        assert scopes[i].projectEnvironmentId != scopes[j].projectEnvironmentId;
      }
    }
    if NoRepeats(Environments(scopes)) {
      forall i, j | 0 <= i < j < |scopes| ensures scopes[i].projectEnvironmentId != scopes[j].projectEnvironmentId {
        assert Environments(scopes)[i] != Environments(scopes)[j];
      }
    }
  }

  /** The same check without the counting: one environment per scope, and no resource shared or repeated. */
  ghost predicate Separated(c: Config)
  {
    var scopes := c.resourceScopes;
    && c.schemaVersion == 1 && c.projectId != 0 && c.anchorConnectionId != 0
    && 1 <= |scopes| <= 16 && (forall i | 0 <= i < |scopes| :: ScopeWellFormed(scopes[i]))
    && (forall i, j | 0 <= i < j < |scopes| :: scopes[i].projectEnvironmentId != scopes[j].projectEnvironmentId)
    && Separate(Lists(scopes, false)) && Separate(Lists(scopes, true))
    && |Flat(Lists(scopes, false))| <= 32 && |Flat(Lists(scopes, true))| <= 100
    && AnchorListed(c)
    && (c.writeConnectionId.Some? ==> Holders(scopes, c.writeConnectionId.value) == 1)
  }

  lemma {:induction false} ScopeLists(scopes: seq<Scope>, i: nat)
    requires i < |scopes|
    ensures |Lists(scopes, false)| == |scopes| == |Lists(scopes, true)|
    ensures Lists(scopes, false)[i] == scopes[i].connectionIds && Lists(scopes, true)[i] == scopes[i].sourceIds
    ensures |scopes[i].connectionIds| <= |Connections(scopes)| && |scopes[i].sourceIds| <= |Sources(scopes)|
  {
    if i > 0 {
      ScopeLists(scopes[1..], i - 1);
    } else if |scopes| > 1 {
      ScopeLists(scopes[1..], 0);
    }
  }

  /** In separate scopes a connection that occurs at all is held by exactly one. */
  lemma {:induction false} HeldOnce(scopes: seq<Scope>, id: Uuid)
    requires NoRepeats(Connections(scopes))
    ensures Holders(scopes, id) == if id in Connections(scopes) then 1 else 0
  {
    if scopes != [] {
      var first, rest := scopes[0].connectionIds, Connections(scopes[1..]);
      ConcatNoRepeats(first, rest);
      HeldOnce(scopes[1..], id);
      assert id in first && id in rest ==> !Disjoint(first, rest);
    }
  }

  lemma CountsMean(scopes: seq<Scope>)
    ensures |Elements(Connections(scopes))| + |Elements(Sources(scopes))| == ResourceCount(scopes)
            <==> Separate(Lists(scopes, false)) && Separate(Lists(scopes, true))
    ensures Separate(Lists(scopes, false)) ==> |Elements(Connections(scopes))| == |Connections(scopes)|
    ensures Separate(Lists(scopes, true)) ==> |Elements(Sources(scopes))| == |Sources(scopes)|
  {
    hide Separate, NoRepeats, Elements;
    ListsAgree(scopes);
    ElementsCount(Connections(scopes));
    ElementsCount(Sources(scopes));
    FlatNoRepeats(Lists(scopes, false));
    FlatNoRepeats(Lists(scopes, true));
  }

  lemma NoneNilMeans(ids: seq<Uuid>)
    ensures NoneNil(ids) <==> 0 !in ids
  {
  }

  lemma ScopesMean(scopes: seq<Scope>)
    requires Separate(Lists(scopes, false)) && Separate(Lists(scopes, true))
    requires |Connections(scopes)| <= MAX_CONNECTIONS && |Sources(scopes)| <= MAX_SOURCES
    ensures forall i | 0 <= i < |scopes| :: ScopeAccepted(scopes[i]) <==> ScopeWellFormed(scopes[i])
  {
    hide NoRepeats, Disjoint, Elements, NoneNil;
    forall i | 0 <= i < |scopes| ensures ScopeAccepted(scopes[i]) <==> ScopeWellFormed(scopes[i]) {
      ScopeLists(scopes, i);
      NoneNilMeans(scopes[i].connectionIds);
      NoneNilMeans(scopes[i].sourceIds);
      assert NoRepeats(Lists(scopes, false)[i]) && NoRepeats(Lists(scopes, true)[i]);
      ElementsCount(scopes[i].connectionIds);
      ElementsCount(scopes[i].sourceIds);
    }
  }

  lemma WriteMeans(c: Config)
    requires Separate(Lists(c.resourceScopes, false))
    ensures (c.writeConnectionId.None? || c.writeConnectionId.value in Elements(Connections(c.resourceScopes)))
            <==> (c.writeConnectionId.Some? ==> Holders(c.resourceScopes, c.writeConnectionId.value) == 1)
  {
    hide Separate, NoRepeats, Connections, Holders;
    ListsAgree(c.resourceScopes);
    FlatNoRepeats(Lists(c.resourceScopes, false));
    if c.writeConnectionId.Some? {
      HeldOnce(c.resourceScopes, c.writeConnectionId.value);
    }
  }

  /**
   * The counting equation is worth the whole separation: a configuration is accepted exactly when its scopes
   * have different environments and share no connection and no source, with nothing listed twice.
   */
  lemma AcceptedMeansSeparated(c: Config)
    ensures Accepted(c) <==> Separated(c)
  {
    hide Separate, NoRepeats, Elements, Connections, Sources, Lists, ResourceCount, Environments, AnchorKnown, AnchorListed,
         ScopeAccepted, ScopeWellFormed, Holders;
    var scopes := c.resourceScopes;
    ListsAgree(scopes);
    CountsMean(scopes);
    ElementsCount(Environments(scopes));
    EnvironmentsDiffer(scopes);
    AnchorsAgree(c);
    if Separate(Lists(scopes, false)) && Separate(Lists(scopes, true)) {
      WriteMeans(c);
      if |Connections(scopes)| <= MAX_CONNECTIONS && |Sources(scopes)| <= MAX_SOURCES {
        ScopesMean(scopes);
      }
    }
  }
}
