// What must hold of a schema document for validation to be well founded, and what the audit of
// supported keywords does and does not establish.
module SchemaAudit {
  import opened Unicode
  import opened Wrappers
  import opened TextOrder
  import opened Json
  import opened JsonPointer
  import opened Schema
  import opened JsonMeaning

  // ---- acyclic steps give a ranking ----------------------------------------------------------

  /** A step of the validator that stays on the same value. */
  ghost predicate Edge(env: Env, s: Json, t: Json) {
    RefTarget(env, s) == Some(t) || exists i :: 0 <= i < |Alternatives(s)| && Alternatives(s)[i] == t
  }

  ghost predicate Path(env: Env, scope: set<Json>, p: seq<Json>) {
    && p != [] && (forall x <- p :: x in scope)
    && forall i, j :: 0 <= i && j == i + 1 && j < |p| ==> Edge(env, p[i], p[j])
  }

  /** No schema leads back to itself on the same value. */
  ghost predicate Acyclic(env: Env, scope: set<Json>) {
    forall p :: Path(env, scope, p) && |p| > 1 ==> p[0] != p[|p| - 1]
  }

  /** The scope holds every schema the validator can reach from one of its own. */
  ghost predicate Closed(env: Env, scope: set<Json>) {
    forall s <- scope ::
      && s.Object? && Typed(s)
      && (forall t :: Edge(env, s, t) ==> t in scope)
      && (Given(s, "items").Some? ==> Given(s, "items").value in scope)
      && (Given(s, "propertyNames").Some? ==> Given(s, "propertyNames").value in scope)
      && (forall key :: MemberRule(s, key).Checked? ==> MemberRule(s, key).schema in scope)
  }

  lemma {:induction false} DistinctFits(p: seq<Json>, t: set<Json>)
    requires Distinct(p) && forall x <- p :: x in t
    ensures |p| <= |t|
  {
    if p != [] {
      var last := |p| - 1;
      assert p[last] in p && p[last] in t;
      forall x | x in p[..last] ensures x in t - {p[last]} {
        assert x in p;
      }
      DistinctFits(p[..last], t - {p[last]});
    }
  }

  /** A path does not come back to a schema it has been at. */
  lemma NoReturn(env: Env, scope: set<Json>, p: seq<Json>, j: nat)
    requires Acyclic(env, scope) && Path(env, scope, p) && j < |p| - 1
    ensures p[j] != p[|p| - 1]
  {
    hide Edge;
    var tail := p[j..];
    assert forall x <- tail :: x in p;
    assert forall i :: 0 <= i < |tail| ==> tail[i] == p[j + i];
    assert Path(env, scope, tail);
  }

  /** Following edges within `left` from the end of a simple path comes to a schema with none. */
  lemma FindSink(env: Env, scope: set<Json>, left: set<Json>, p: seq<Json>) returns (sink: Json)
    requires Acyclic(env, scope) && left <= scope
    requires Path(env, left, p) && Distinct(p)
    ensures sink in left && forall t <- left :: !Edge(env, sink, t)
    decreases |left| - |p|
  {
    hide Edge;
    DistinctFits(p, left);
    var last := |p| - 1;
    assert p[last] in p;
    if t :| t in left && Edge(env, p[last], t) {
      var longer := p + [t];
      assert Path(env, scope, longer);
      forall j | 0 <= j < |p| ensures p[j] != t { NoReturn(env, scope, longer, j); }
      DistinctFits(longer, left);
      sink := FindSink(env, scope, left, longer);
    } else {
      sink := p[last];
    }
  }

  /** Schemas without edges among those left are ranked first. */
  lemma RankAll(env: Env, scope: set<Json>, left: set<Json>) returns (rank: Ranking)
    requires Acyclic(env, scope) && left <= scope
    ensures rank.Keys == left
    ensures forall s <- left, t <- left :: Edge(env, s, t) ==> rank[t] < rank[s]
    decreases |left|
  {
    hide Edge, Acyclic;
    if left == {} {
      rank := map[];
    } else {
      var start :| start in left;
      assert Path(env, left, [start]);
      var sink := FindSink(env, scope, left, [start]);
      var rest := left - {sink};
      var above := RankAll(env, scope, rest);
      rank := map s | s in left :: if s == sink then 0 else above[s] + 1;
    }
  }

  /** A closed scope whose same-value steps are acyclic can be validated against: there is a ranking
      for the validator's termination measure. */
  lemma AcyclicIsStratified(env: Env, scope: set<Json>) returns (rank: Ranking)
    requires Closed(env, scope) && Acyclic(env, scope)
    ensures rank.Keys == scope && Stratified(env, rank)
  {
    hide Acyclic, Typed, MemberRule, Given, RefTarget, Alternatives;
    rank := RankAll(env, scope, scope);
    forall s | s in rank ensures Descends(env, rank, s) {
      assert RefTarget(env, s).Some? ==> Edge(env, s, RefTarget(env, s).value);
      forall i | 0 <= i < |Alternatives(s)| ensures Edge(env, s, Alternatives(s)[i]) { }
    }
  }

  /** And only such a scope can: a ranking falls along every same-value step. */
  lemma StratifiedIsAcyclic(env: Env, rank: Ranking)
    requires Stratified(env, rank)
    ensures Closed(env, rank.Keys) && Acyclic(env, rank.Keys)
  {
    hide Typed, MemberRule, Given, RefTarget, Alternatives, Path;
    assert forall s <- rank :: Descends(env, rank, s);
    forall p | Path(env, rank.Keys, p) && |p| > 1 ensures p[0] != p[|p| - 1] {
      RankFalls(env, rank, p, |p| - 1);
    }
  }

  lemma {:induction false} RankFalls(env: Env, rank: Ranking, p: seq<Json>, k: nat)
    requires Stratified(env, rank) && Path(env, rank.Keys, p) && 0 < k < |p|
    ensures p[0] in rank && p[k] in rank && rank[p[k]] < rank[p[0]]
  {
    hide Typed, MemberRule, Given, RefTarget, Alternatives;
    assert p[0] in p && p[k - 1] in p && p[k] in p;
    assert Edge(env, p[k - 1], p[k]) && Descends(env, rank, p[k - 1]);
    if k > 1 { RankFalls(env, rank, p, k - 1); }
  }

  /** The verdict does not depend on which ranking witnesses termination. */
  lemma {:induction false} RankIrrelevant(v: Json, s: Json, env: Env, rank: Ranking, other: Ranking)
    requires Stratified(env, rank) && Stratified(env, other) && s in rank && s in other
    ensures Satisfies(v, s, env, rank) <==> Satisfies(v, s, env, other)
    decreases Depth(v), rank[s]
  {
    hide LocalOk, Typed, Depth, Given, MemberRule, RefTarget, Alternatives;
    assert Descends(env, rank, s) && Descends(env, other, s);
    if RefTarget(env, s).Some? { RankIrrelevant(v, RefTarget(env, s).value, env, rank, other); }
    forall i | 0 <= i < |Alternatives(s)|
      ensures Satisfies(v, Alternatives(s)[i], env, rank) <==> Satisfies(v, Alternatives(s)[i], env, other)
    {
      RankIrrelevant(v, Alternatives(s)[i], env, rank, other);
    }
    if v.List? && Given(s, "items").Some? {
      forall i | 0 <= i < |v.items|
        ensures Satisfies(v.items[i], Given(s, "items").value, env, rank) <==> Satisfies(v.items[i], Given(s, "items").value, env, other)
      {
        ChildIsShallower(v, i);
        RankIrrelevant(v.items[i], Given(s, "items").value, env, rank, other);
      }
    }
    if v.Object? {
      forall i | 0 <= i < |v.members| ensures MemberOk(v.members[i], s, env, rank) <==> MemberOk(v.members[i], s, env, other) {
        ChildIsShallower(v, i);
        var rule := MemberRule(s, v.members[i].key);
        if rule.Checked? { RankIrrelevant(v.members[i].value, rule.schema, env, rank, other); }
      }
      if Given(s, "propertyNames").Some? {
        var names := Given(s, "propertyNames").value;
        forall i | 0 <= i < |v.members|
          ensures Satisfies(Str(v.members[i].key), names, env, rank) <==> Satisfies(Str(v.members[i].key), names, env, other)
        {
          NameIsShallower(v, i);
          RankIrrelevant(Str(v.members[i].key), names, env, rank, other);
        }
      }
    }
  }

  // ---- _audit_supported_schema ---------------------------------------------------------------

  const SUPPORTED: seq<string> := [
    "$schema", "$id", "$ref", "$defs", "title", "type", "const", "enum", "anyOf", "required", "properties",
    "additionalProperties", "propertyNames", "items", "minItems", "maxItems", "minProperties", "maxProperties", "minLength",
    "maxLength", "pattern", "format", "minimum", "maximum"]

  const TYPES: seq<string> := ["null", "object", "array", "string", "integer", "number", "boolean"]

  predicate Listed(key: Text, names: seq<string>) {
    exists i :: 0 <= i < |names| && Literal(names[i]) == key
  }

  predicate TypeNames(v: Json) {
    match v
    case Str(name) => Listed(name, TYPES)
    case List(names) => forall i :: 0 <= i < |names| ==> names[i].Str? && Listed(names[i].text, TYPES)
    case _ => false
  }

  /** The audit of one member of a schema object. */
  predicate KeywordAudited(m: Member)
    decreases m, 0
  {
    && Listed(m.key, SUPPORTED)
    && (m.key == Literal("format") ==> m.value == Str(Literal("date-time")))
    && (m.key == Literal("type") ==> TypeNames(m.value))
    && (m.key == Literal("$defs") || m.key == Literal("properties") ==>
          m.value.Object? && forall i :: 0 <= i < |m.value.members| ==> Audited(m.value.members[i].value))
    && (m.key == Literal("items") || m.key == Literal("propertyNames") ==> m.value.Null? || Audited(m.value))
    && (m.key == Literal("additionalProperties") && m.value.Object? ==> Audited(m.value))
    && (m.key == Literal("anyOf") ==>
          m.value.List? && forall i :: 0 <= i < |m.value.items| ==> Audited(m.value.items[i]))
  }

  /** `_audit_supported_schema` returns, for an object. */
  predicate Audited(s: Json)
    decreases s, 1
  {
    s.Object? && forall i :: 0 <= i < |s.members| ==> KeywordAudited(s.members[i])
  }

  lemma FieldAudited(s: Json, name: string)
    requires Audited(s) && Field(s, name).Some?
    ensures KeywordAudited(Member(Literal(name), Field(s, name).value))
  {
    hide Literal, KeywordAudited;
    FindAt(s.members, Literal(name));
    var i :| 0 <= i < |s.members| && s.members[i].key == Literal(name) && s.members[i].value == Field(s, name).value;
    assert s.members[i] == Member(Literal(name), Field(s, name).value);
  }

  // ---- the schemas the audit visits ----------------------------------------------------------

  predicate Enters(key: Text) {
    key == Literal("items") || key == Literal("propertyNames") || key == Literal("additionalProperties")
  }

  predicate Holds(key: Text) {
    key == Literal("$defs") || key == Literal("properties")
  }

  /** The schema and every schema the audit visits from it. */
  function Visited(s: Json): set<Json>
    decreases s, 1
  {
    {s} + if s.Object? then set i, x | 0 <= i < |s.members| && x in VisitedBy(s.members[i]) :: x else {}
  }

  function VisitedBy(m: Member): set<Json>
    decreases m, 0
  {
    if Holds(m.key) && m.value.Object? then
      set i, x | 0 <= i < |m.value.members| && x in Visited(m.value.members[i].value) :: x
    else if Enters(m.key) && m.value.Object? then Visited(m.value)
    else if m.key == Literal("anyOf") && m.value.List? then
      set i, x | 0 <= i < |m.value.items| && x in Visited(m.value.items[i]) :: x
    else {}
  }

  /** Whatever it visits has passed it. */
  lemma {:induction false} VisitedAudited(s: Json, x: Json)
    requires Audited(s) && x in Visited(s)
    ensures Audited(x)
    decreases s, 1
  {
    hide Literal, KeywordAudited, VisitedBy;
    if x != s {
      var i :| 0 <= i < |s.members| && x in VisitedBy(s.members[i]);
      VisitedByAudited(s.members[i], x);
    }
  }

  lemma {:induction false} VisitedByAudited(m: Member, x: Json)
    requires KeywordAudited(m) && x in VisitedBy(m)
    ensures Audited(x)
    decreases m, 0
  {
    hide Literal, Listed, TypeNames, Audited, Visited;
    if Holds(m.key) && m.value.Object? {
      var i :| 0 <= i < |m.value.members| && x in Visited(m.value.members[i].value);
      VisitedAudited(m.value.members[i].value, x);
    } else if Enters(m.key) && m.value.Object? {
      VisitedAudited(m.value, x);
    } else {
      var i :| 0 <= i < |m.value.items| && x in Visited(m.value.items[i]);
      VisitedAudited(m.value.items[i], x);
    }
  }

  /** What a member must look like, whatever lies below it. */
  predicate MemberSound(m: Member) {
    && Listed(m.key, SUPPORTED)
    && (m.key == Literal("format") ==> m.value == Str(Literal("date-time")))
    && (m.key == Literal("type") ==> m.value.Str? || m.value.List?)
    && (m.key == Literal("type") && m.value.Str? ==> Listed(m.value.text, TYPES))
    && (m.key == Literal("type") && m.value.List? ==> forall t <- m.value.items :: t.Str? && Listed(t.text, TYPES))
    && (Holds(m.key) ==> m.value.Object?)
    && (m.key == Literal("items") || m.key == Literal("propertyNames") ==> m.value.Null? || m.value.Object?)
    && (m.key == Literal("anyOf") ==> m.value.List?)
  }

  predicate SchemaSound(s: Json) {
    s.Object? && forall m <- s.members :: MemberSound(m)
  }

  /** The audit accepts a schema exactly when every schema it visits looks as it must, member by member. */
  lemma AuditIsLocal(s: Json)
    ensures Audited(s) <==> forall x <- Visited(s) :: SchemaSound(x)
  {
    hide Audited, Visited, SchemaSound;
    if Audited(s) {
      forall x <- Visited(s) ensures SchemaSound(x) {
        VisitedAudited(s, x);
        AuditedIsSound(x);
      }
    }
    if forall x <- Visited(s) :: SchemaSound(x) { SoundIsAudited(s); }
  }

  lemma AuditedIsSound(s: Json)
    requires Audited(s)
    ensures SchemaSound(s)
  {
    hide KeywordAudited, MemberSound;
    forall m <- s.members ensures MemberSound(m) {
      var i :| 0 <= i < |s.members| && s.members[i] == m;
      KeywordIsSound(m);
    }
  }

  lemma KeywordIsSound(m: Member)
    requires KeywordAudited(m)
    ensures MemberSound(m)
  {
    hide Literal, Listed;
  }

  lemma {:induction false} SoundIsAudited(s: Json)
    requires forall x <- Visited(s) :: SchemaSound(x)
    ensures Audited(s)
    decreases s, 1
  {
    hide Literal, MemberSound, VisitedBy, KeywordAudited;
    assert s in Visited(s);
    forall i | 0 <= i < |s.members| ensures KeywordAudited(s.members[i]) {
      assert s.members[i] in s.members;
      assert forall x <- VisitedBy(s.members[i]) :: x in Visited(s);
      SoundMemberAudited(s.members[i]);
    }
  }

  lemma {:induction false} SoundMemberAudited(m: Member)
    requires MemberSound(m) && forall x <- VisitedBy(m) :: SchemaSound(x)
    ensures KeywordAudited(m)
    decreases m, 0
  {
    hide Literal, Listed, Audited, Visited, SchemaSound;
    KeysDiffer();
    if Holds(m.key) {
      forall i | 0 <= i < |m.value.members| ensures Audited(m.value.members[i].value) {
        assert forall x <- Visited(m.value.members[i].value) :: x in VisitedBy(m);
        SoundIsAudited(m.value.members[i].value);
      }
    } else if Enters(m.key) && m.value.Object? {
      SoundIsAudited(m.value);
    } else if m.key == Literal("anyOf") {
      forall i | 0 <= i < |m.value.items| ensures Audited(m.value.items[i]) {
        assert forall x <- Visited(m.value.items[i]) :: x in VisitedBy(m);
        SoundIsAudited(m.value.items[i]);
      }
    }
  }

  /** The keywords that hold or enter schemas are different ones. */
  lemma KeysDiffer()
    ensures !Holds(Literal("items")) && !Holds(Literal("propertyNames")) && !Holds(Literal("additionalProperties"))
    ensures !Holds(Literal("anyOf")) && !Enters(Literal("anyOf"))
  {
    assert Literal("$defs")[0] == '$' as int && Literal("properties")[0] == 'p' as int && Literal("properties")[8] == 'e' as int;
    assert Literal("items")[0] == 'i' as int && Literal("propertyNames")[8] == 'N' as int;
    assert Literal("additionalProperties")[0] == 'a' as int && Literal("anyOf")[1] == 'n' as int;
    assert Literal("additionalProperties")[1] == 'd' as int;
  }

  lemma {:induction false} VisitedTransitive(s: Json, x: Json, y: Json)
    requires x in Visited(s) && y in Visited(x)
    ensures y in Visited(s)
    decreases s, 1
  {
    hide VisitedBy;
    if x != s {
      var i :| 0 <= i < |s.members| && x in VisitedBy(s.members[i]);
      VisitedByTransitive(s.members[i], x, y);
    }
  }

  lemma {:induction false} VisitedByTransitive(m: Member, x: Json, y: Json)
    requires x in VisitedBy(m) && y in Visited(x)
    ensures y in VisitedBy(m)
    decreases m, 0
  {
    hide Literal, Visited;
    if Holds(m.key) && m.value.Object? {
      var i :| 0 <= i < |m.value.members| && x in Visited(m.value.members[i].value);
      VisitedTransitive(m.value.members[i].value, x, y);
    } else if Enters(m.key) && m.value.Object? {
      VisitedTransitive(m.value, x, y);
    } else {
      var i :| 0 <= i < |m.value.items| && x in Visited(m.value.items[i]);
      VisitedTransitive(m.value.items[i], x, y);
    }
  }

  lemma VisitedSelf(s: Json)
    ensures s in Visited(s)
  {
  }

  /** Stepping into a keyword whose value is a schema. */
  lemma EnterVisits(s: Json, key: Text, x: Json)
    requires Enters(key) && Get(s, key) == Some(x) && x.Object?
    ensures x in Visited(s)
  {
    hide Literal, Holds, Enters;
    EntersAlone(key);
    FindAt(s.members, key);
    VisitedSelf(x);
    var i :| 0 <= i < |s.members| && s.members[i].key == key && s.members[i].value == x;
    assert x in VisitedBy(s.members[i]);
  }

  /** Stepping into one of the schemas a keyword holds by name. */
  lemma HeldVisits(s: Json, key: Text, name: Text, holder: Json, x: Json)
    requires Holds(key) && Get(s, key) == Some(holder) && Get(holder, name) == Some(x)
    ensures x in Visited(s)
  {
    hide Literal, Holds, Enters;
    FindAt(s.members, key);
    FindAt(holder.members, name);
    VisitedSelf(x);
    var i :| 0 <= i < |s.members| && s.members[i].key == key && s.members[i].value == holder;
    var j :| 0 <= j < |holder.members| && holder.members[j].key == name && holder.members[j].value == x;
    assert x in VisitedBy(s.members[i]);
  }

  lemma AlternativeVisits(s: Json, k: nat)
    requires k < |Alternatives(s)|
    ensures Alternatives(s)[k] in Visited(s)
  {
    hide Literal, Holds, Enters;
    AnyOfAlone();
    var alternatives := Field(s, "anyOf").value;
    FindAt(s.members, Literal("anyOf"));
    VisitedSelf(alternatives.items[k]);
    var i :| 0 <= i < |s.members| && s.members[i].key == Literal("anyOf") && s.members[i].value == alternatives;
    assert alternatives.items[k] in VisitedBy(s.members[i]);
  }

  /** Every step of the validator except `$ref` stays among the schemas the audit visits, and these
      have all passed it. */
  lemma AuditCoversSteps(s: Json, key: Text)
    requires Audited(s)
    ensures forall x <- Visited(s) :: Audited(x)
    ensures forall i :: 0 <= i < |Alternatives(s)| ==> Alternatives(s)[i] in Visited(s)
    ensures Given(s, "items").Some? ==> Given(s, "items").value in Visited(s)
    ensures Given(s, "propertyNames").Some? ==> Given(s, "propertyNames").value in Visited(s)
    ensures MemberRule(s, key).Checked? ==> MemberRule(s, key).schema in Visited(s)
  {
    hide Literal, Listed, TypeNames, Visited, Alternatives;
    forall x | x in Visited(s) ensures Audited(x) { VisitedAudited(s, x); }
    forall i | 0 <= i < |Alternatives(s)| ensures Alternatives(s)[i] in Visited(s) { AlternativeVisits(s, i); }
    if Given(s, "items").Some? {
      FieldAudited(s, "items");
      EnterVisits(s, Literal("items"), Given(s, "items").value);
    }
    if Given(s, "propertyNames").Some? {
      FieldAudited(s, "propertyNames");
      EnterVisits(s, Literal("propertyNames"), Given(s, "propertyNames").value);
    }
    MemberVisits(s, key);
  }

  lemma MemberVisits(s: Json, key: Text)
    requires Audited(s)
    ensures MemberRule(s, key).Checked? ==> MemberRule(s, key).schema in Visited(s)
  {
    hide Literal, Listed, TypeNames, Visited, Audited, KeywordAudited;
    match Field(s, "properties")
    case None => AdditionalVisits(s);
    case Some(declared) =>
      match Get(declared, key)
      case None => AdditionalVisits(s);
      case Some(inner) => HeldVisits(s, Literal("properties"), key, declared, inner);
  }

  lemma AdditionalVisits(s: Json)
    ensures match Field(s, "additionalProperties")
            case Some(Object(members)) => Object(members) in Visited(s)
            case _ => true
  {
    hide Literal, Visited;
    match Field(s, "additionalProperties")
    case Some(Object(members)) => EnterVisits(s, Literal("additionalProperties"), Object(members));
    case _ =>
  }

  // ---- where references lead -----------------------------------------------------------------

  /** A keyword the audit accepts and does not look into. */
  predicate Unseen(key: Text) {
    && Listed(key, SUPPORTED)
    && !Holds(key) && !Enters(key) && key != Literal("anyOf") && key != Literal("format") && key != Literal("type")
  }

  /** Keywords whose values the validator computes with: in a typed schema none of them is an object. */
  const COMPUTED: seq<string> := [
    "minItems", "maxItems", "minProperties", "maxProperties", "minLength", "maxLength", "minimum", "maximum", "pattern", "enum",
    "required"]

  /** An unseen keyword that may hold an object, in any document or in one with typed schemas only. */
  predicate Loose(key: Text, typed: bool) {
    Unseen(key) && (typed ==> !Listed(key, COMPUTED))
  }

  /** Every schema the audit visits has keyword values of the kinds the validator computes with. */
  ghost predicate AllTyped(root: Json) {
    forall s <- Visited(root) :: Typed(s)
  }

  /** The names step from schema to schema, through `items`, `propertyNames` or `additionalProperties`,
      or through `$defs` or `properties` and one name below it. */
  predicate Position(names: seq<Text>)
    decreases |names|
  {
    || names == []
    || (Enters(names[0]) && Position(names[1..]))
    || (Holds(names[0]) && |names| >= 2 && Position(names[2..]))
  }

  /** From a schema the names step into a keyword that the audit does not look into, or end at the
      object that holds schemas by name and is none itself. */
  predicate Escapes(names: seq<Text>, typed: bool)
    decreases |names|
  {
    && names != []
    && (|| (Enters(names[0]) && Escapes(names[1..], typed))
        || (Holds(names[0]) && (|names| == 1 || Escapes(names[2..], typed)))
        || Loose(names[0], typed))
  }

  lemma {:induction false} EscapesAnyway(names: seq<Text>, typed: bool)
    requires Escapes(names, typed)
    ensures Escapes(names, false)
    decreases |names|
  {
    hide Enters, Holds, Unseen;
    if Enters(names[0]) && Escapes(names[1..], typed) { EscapesAnyway(names[1..], typed); }
    else if Holds(names[0]) && |names| > 1 && Escapes(names[2..], typed) { EscapesAnyway(names[2..], typed); }
  }

  /** Names in position lead from a schema to schemas the audit visits. */
  lemma {:induction false} PositionVisits(root: Json, names: seq<Text>, v: Json)
    requires Audited(root) && Position(names) && Follow(root, names) == Some(v) && v.Object?
    ensures v in Visited(root)
    decreases |names|
  {
    hide Literal, Enters, Holds, Visited, Audited, KeywordAudited;
    if names == [] {
      VisitedSelf(root);
    } else if Enters(names[0]) && Position(names[1..]) {
      EnterPosition(root, names, v);
    } else {
      HeldPosition(root, names, v);
    }
  }

  lemma {:induction false} EnterPosition(root: Json, names: seq<Text>, v: Json)
    requires Audited(root) && Follow(root, names) == Some(v) && v.Object?
    requires names != [] && Enters(names[0]) && Position(names[1..])
    ensures v in Visited(root)
    decreases |names|, 0
  {
    hide Literal, Enters, Holds, Visited, Audited, KeywordAudited, Position;
    var inner := Get(root, names[0]).value;
    FollowsObject(inner, names[1..], v);
    EnterVisits(root, names[0], inner);
    VisitedAudited(root, inner);
    PositionVisits(inner, names[1..], v);
    VisitedTransitive(root, inner, v);
  }

  lemma {:induction false} HeldPosition(root: Json, names: seq<Text>, v: Json)
    requires Audited(root) && Follow(root, names) == Some(v) && v.Object?
    requires |names| >= 2 && Holds(names[0]) && Position(names[2..])
    ensures v in Visited(root)
    decreases |names|, 0
  {
    hide Literal, Enters, Holds, Visited, Audited, KeywordAudited, Position;
    var holder := Get(root, names[0]).value;
    assert names[1..][0] == names[1] && names[1..][1..] == names[2..];
    var inner := Get(holder, names[1]).value;
    HeldVisits(root, names[0], names[1], holder, inner);
    VisitedAudited(root, inner);
    PositionVisits(inner, names[2..], v);
    VisitedTransitive(root, inner, v);
  }

  /** Only an object can be followed to an object. */
  lemma FollowsObject(inner: Json, names: seq<Text>, v: Json)
    requires Follow(inner, names) == Some(v) && v.Object?
    ensures inner.Object?
  {
  }

  /** In an audited document, names that lead to an object are in position or escape. */
  lemma {:induction false} PositionOrEscapes(root: Json, names: seq<Text>, v: Json, typed: bool)
    requires Audited(root) && Follow(root, names) == Some(v) && v.Object? && (typed ==> AllTyped(root))
    ensures Position(names) || Escapes(names, typed)
    decreases |names|
  {
    hide Literal, Enters, Holds, Loose, Audited, KeywordAudited, Visited, AllTyped;
    if names != [] {
      var inner := Get(root, names[0]).value;
      FollowsObject(inner, names[1..], v);
      if Enters(names[0]) {
        EnterVisits(root, names[0], inner);
        Descend(root, inner, typed);
        PositionOrEscapes(inner, names[1..], v, typed);
      } else if Holds(names[0]) {
        if |names| >= 2 {
          assert names[1..][0] == names[1] && names[1..][1..] == names[2..];
          var held := Get(inner, names[1]).value;
          HeldVisits(root, names[0], names[1], inner, held);
          Descend(root, held, typed);
          PositionOrEscapes(held, names[2..], v, typed);
        }
      } else {
        ObjectLoose(root, names[0], inner, typed);
      }
    }
  }

  lemma Descend(root: Json, x: Json, typed: bool)
    requires Audited(root) && x in Visited(root) && (typed ==> AllTyped(root))
    ensures Audited(x) && (typed ==> AllTyped(x))
  {
    hide Audited, Visited, Typed;
    VisitedAudited(root, x);
    forall y | y in Visited(x) ensures y in Visited(root) { VisitedTransitive(root, x, y); }
  }

  /** An object under any other keyword is one the audit has not looked into. */
  lemma ObjectLoose(root: Json, key: Text, inner: Json, typed: bool)
    requires Audited(root) && Get(root, key) == Some(inner) && inner.Object? && !Enters(key) && !Holds(key)
    requires typed ==> AllTyped(root)
    ensures Loose(key, typed)
  {
    hide Literal, Listed, Enters, Holds, Typed, Visited;
    FindAt(root.members, key);
    var i :| 0 <= i < |root.members| && root.members[i].key == key && root.members[i].value == inner;
    assert KeywordAudited(root.members[i]);
    if typed {
      VisitedSelf(root);
      ComputedKinds(root, key);
    }
  }

  lemma ComputedKinds(s: Json, key: Text)
    requires Typed(s) && Get(s, key).Some? && Get(s, key).value.Object?
    ensures !Listed(key, COMPUTED)
  {
    hide Literal;
    if Listed(key, COMPUTED) {
      var i :| 0 <= i < |COMPUTED| && Literal(COMPUTED[i]) == key;
      ComputedKind(s, i);
    }
  }

  lemma ComputedKind(s: Json, i: nat)
    requires Typed(s) && i < |COMPUTED|
    ensures Get(s, Literal(COMPUTED[i])).Some? ==> !Get(s, Literal(COMPUTED[i])).value.Object?
  {
    hide Literal;
    assert Field(s, COMPUTED[i]) == Get(s, Literal(COMPUTED[i]));
    if i < 8 { assert NumberOrAbsent(s, COMPUTED[i]); }
  }

  /** An object the audit refuses, at the end of these names. */
  function Nest(names: seq<Text>): Json
    decreases |names|
  {
    if names == [] then Object([Member([], Null)]) else Object([Member(names[0], Nest(names[1..]))])
  }

  /** The keyword of an audited schema in which these names start and lead to a refused object. */
  function Witness(names: seq<Text>): Member
    requires Escapes(names, false)
    decreases |names|
  {
    if Enters(names[0]) && Escapes(names[1..], false) then Member(names[0], Object([Witness(names[1..])]))
    else if Holds(names[0]) then
      Member(names[0], Object([if |names| == 1 then Member([], Object([])) else Member(names[1], Object([Witness(names[2..])]))]))
    else Member(names[0], Nest(names[1..]))
  }

  lemma {:induction false} NestEnds(names: seq<Text>)
    ensures Follow(Nest(names), names) == Some(Nest([]))
    decreases |names|
  {
    if names != [] { NestEnds(names[1..]); }
  }

  lemma NestRefused()
    ensures !Audited(Nest([]))
  {
    hide Listed;
    NothingListed();
    assert !KeywordAudited(Nest([]).members[0]);
  }

  lemma HolderRefused(holder: Json, x: Json)
    requires holder == Object([Member([], x)])
    ensures !Audited(holder)
  {
    hide Listed;
    NothingListed();
    assert !KeywordAudited(holder.members[0]);
  }

  lemma {:induction false} WitnessAudited(names: seq<Text>)
    requires Escapes(names, false)
    ensures KeywordAudited(Witness(names)) && Witness(names).key == names[0]
    decreases |names|
  {
    hide Literal, Listed, TypeNames, Enters, Holds, KeywordAudited;
    if Enters(names[0]) && Escapes(names[1..], false) {
      WitnessAudited(names[1..]);
      EnterAudited(names[0], Object([Witness(names[1..])]));
    } else if Holds(names[0]) {
      if |names| == 1 {
        HoldAudited(names[0], Member([], Object([])));
      } else {
        WitnessAudited(names[2..]);
        HoldAudited(names[0], Member(names[1], Object([Witness(names[2..])])));
      }
    } else {
      UnseenAudited(names[0], Nest(names[1..]));
    }
  }

  lemma EnterAudited(key: Text, v: Json)
    requires Enters(key) && Audited(v)
    ensures KeywordAudited(Member(key, v))
  {
    hide Literal, Listed;
    EntersAlone(key);
  }

  lemma HoldAudited(key: Text, m: Member)
    requires Holds(key) && Audited(m.value)
    ensures KeywordAudited(Member(key, Object([m])))
  {
    hide Literal, Listed;
    HoldsAlone(key);
  }

  lemma UnseenAudited(key: Text, v: Json)
    requires Unseen(key)
    ensures KeywordAudited(Member(key, v))
  {
    hide Literal, Listed;
  }

  lemma {:induction false} WitnessLeads(names: seq<Text>) returns (v: Json)
    requires Escapes(names, false)
    ensures Follow(Witness(names).value, names[1..]) == Some(v) && v.Object? && !Audited(v)
    decreases |names|
  {
    hide Literal, Listed, Enters, Holds, Audited, Follow;
    var inner := Witness(names).value;
    if Enters(names[0]) && Escapes(names[1..], false) {
      v := WitnessLeads(names[1..]);
      WitnessAudited(names[1..]);
      FollowFirst(Witness(names[1..]), names[1..]);
    } else if Holds(names[0]) {
      if |names| == 1 {
        v := inner;
        FollowNothing(inner);
        HolderRefused(inner, Object([]));
      } else {
        v := WitnessLeads(names[2..]);
        WitnessAudited(names[2..]);
        FollowFirst(Witness(names[2..]), names[2..]);
        assert names[1..][0] == names[1] && names[1..][1..] == names[2..];
        FollowFirst(inner.members[0], names[1..]);
      }
    } else {
      v := Nest([]);
      NestEnds(names[1..]);
      NestRefused();
    }
  }

  lemma OneDistinct(m: Member)
    requires DistinctKeys(m.value)
    ensures DistinctKeys(Object([m]))
  {
  }

  lemma {:induction false} NestDistinct(names: seq<Text>)
    ensures DistinctKeys(Nest(names))
    decreases |names|
  {
    hide DistinctKeys;
    if names == [] {
      NothingDistinct();
      OneDistinct(Member([], Null));
    } else {
      NestDistinct(names[1..]);
      OneDistinct(Member(names[0], Nest(names[1..])));
    }
  }

  lemma NothingDistinct()
    ensures DistinctKeys(Null) && DistinctKeys(Object([]))
  {
  }

  /** The witness is a document that a loader which refuses repeated names can load. */
  lemma {:induction false} WitnessDistinct(names: seq<Text>)
    requires Escapes(names, false)
    ensures DistinctKeys(Witness(names).value)
    decreases |names|
  {
    hide Literal, Enters, Holds, DistinctKeys;
    if Enters(names[0]) && Escapes(names[1..], false) {
      WitnessDistinct(names[1..]);
      OneDistinct(Witness(names[1..]));
    } else if Holds(names[0]) {
      NothingDistinct();
      if |names| == 1 {
        OneDistinct(Member([], Object([])));
      } else {
        WitnessDistinct(names[2..]);
        OneDistinct(Witness(names[2..]));
        OneDistinct(Member(names[1], Object([Witness(names[2..])])));
      }
    } else {
      NestDistinct(names[1..]);
    }
  }

  lemma FollowNothing(v: Json)
    ensures Follow(v, []) == Some(v)
  {
  }

  lemma FollowFirst(m: Member, names: seq<Text>)
    requires names != [] && m.key == names[0]
    ensures Follow(Object([m]), names) == Follow(m.value, names[1..])
  {
  }

  // ---- the witness has typed schemas only, where its names allow it ---------------------------

  /** A member that leaves its schema typed. */
  predicate Plain(m: Member) {
    !Listed(m.key, COMPUTED) && (m.key == Literal("properties") ==> m.value.Object?)
  }

  lemma PlainTyped(s: Json)
    requires s.Object? && forall i :: 0 <= i < |s.members| ==> Plain(s.members[i])
    ensures Typed(s)
  {
    hide Literal, Plain;
    forall i | 0 <= i < |COMPUTED| ensures Field(s, COMPUTED[i]).None? { PlainAbsent(s, i); }
    assert COMPUTED[8] == "pattern" && COMPUTED[9] == "enum" && COMPUTED[10] == "required";
    forall name <- ["minLength", "maxLength", "minItems", "maxItems", "minProperties", "maxProperties", "minimum", "maximum"]
      ensures NumberOrAbsent(s, name)
    {
      assert name == COMPUTED[4] || name == COMPUTED[5] || name == COMPUTED[0] || name == COMPUTED[1] || name == COMPUTED[2]
        || name == COMPUTED[3] || name == COMPUTED[6] || name == COMPUTED[7];
    }
    PlainProperties(s);
  }

  lemma PlainAbsent(s: Json, i: nat)
    requires s.Object? && forall j :: 0 <= j < |s.members| ==> Plain(s.members[j])
    requires i < |COMPUTED|
    ensures Field(s, COMPUTED[i]).None?
  {
    hide Literal;
    FindAt(s.members, Literal(COMPUTED[i]));
  }

  lemma PlainProperties(s: Json)
    requires s.Object? && forall j :: 0 <= j < |s.members| ==> Plain(s.members[j])
    ensures Field(s, "properties").Some? ==> Field(s, "properties").value.Object?
  {
    hide Literal, Listed;
    FindAt(s.members, Literal("properties"));
  }

  lemma {:induction false} WitnessTyped(names: seq<Text>)
    requires Escapes(names, true) && Escapes(names, false)
    ensures Plain(Witness(names)) && forall x <- VisitedBy(Witness(names)) :: Typed(x)
    decreases |names|
  {
    hide Literal, Listed, Enters, Holds, Typed, Visited, Plain, Unseen;
    if Enters(names[0]) && Escapes(names[1..], false) {
      EntersOnly(names);
      WitnessTyped(names[1..]);
      EnterPlain(names[0], Object([Witness(names[1..])]));
      OneTyped(Witness(names[1..]));
      VisitedByEnter(names[0], Object([Witness(names[1..])]));
    } else if Holds(names[0]) {
      HoldsOnly(names);
      if |names| == 1 {
        HoldPlain(names[0], Member([], Object([])));
        NoneTyped();
        VisitedByHold(names[0], Member([], Object([])));
      } else {
        WitnessTyped(names[2..]);
        HoldPlain(names[0], Member(names[1], Object([Witness(names[2..])])));
        OneTyped(Witness(names[2..]));
        VisitedByHold(names[0], Member(names[1], Object([Witness(names[2..])])));
      }
    } else {
      LooseOnly(names);
      LoosePlain(names[0], Nest(names[1..]));
    }
  }

  /** A keyword is of one kind, so the names escape in one way. */
  lemma EntersOnly(names: seq<Text>)
    requires Escapes(names, true) && Enters(names[0])
    ensures Escapes(names[1..], true)
  {
    hide Literal, Listed, Enters;
    EntersAlone(names[0]);
  }

  lemma HoldsOnly(names: seq<Text>)
    requires Escapes(names, true) && Holds(names[0])
    ensures !Enters(names[0]) && (|names| == 1 || (Escapes(names[2..], true) && Escapes(names[2..], false)))
  {
    hide Literal, Listed, Holds;
    HoldsAlone(names[0]);
    if |names| > 1 { EscapesAnyway(names[2..], true); }
  }

  lemma LooseOnly(names: seq<Text>)
    requires Escapes(names, true) && !(Enters(names[0]) && Escapes(names[1..], false)) && !Holds(names[0])
    ensures Loose(names[0], true)
  {
    hide Literal, Listed, Holds, Enters, Unseen;
    if Enters(names[0]) && Escapes(names[1..], true) { EscapesAnyway(names[1..], true); }
  }

  lemma OneTyped(m: Member)
    requires Plain(m) && forall x <- VisitedBy(m) :: Typed(x)
    ensures forall x <- Visited(Object([m])) :: Typed(x)
  {
    hide Plain, Typed, VisitedBy;
    PlainTyped(Object([m]));
  }

  lemma NoneTyped()
    ensures forall x <- Visited(Object([])) :: Typed(x)
  {
    hide Typed;
    PlainTyped(Object([]));
  }

  lemma VisitedByEnter(key: Text, v: Json)
    requires Enters(key) && v.Object?
    ensures VisitedBy(Member(key, v)) == Visited(v)
  {
    hide Literal, Listed, Enters, Visited, Holds;
    EntersAlone(key);
  }

  lemma VisitedByHold(key: Text, m: Member)
    requires Holds(key)
    ensures VisitedBy(Member(key, Object([m]))) == Visited(m.value)
  {
    hide Holds, Visited;
    var members := [m];
    assert forall i :: 0 <= i < |members| ==> members[i] == m;
    forall x | x in Visited(m.value) ensures x in VisitedBy(Member(key, Object(members))) {
      assert x in Visited(members[0].value);
    }
  }

  lemma EnterPlain(key: Text, v: Json)
    requires Enters(key)
    ensures Plain(Member(key, v))
  {
    assert |key| == 5 || |key| == 13 || |key| == 20;
    assert |key| == 13 ==> key[0] == 'p' as int;
    assert Literal("minProperties")[0] == 'm' as int && Literal("maxProperties")[0] == 'm' as int;
  }

  lemma HoldPlain(key: Text, m: Member)
    requires Holds(key)
    ensures Plain(Member(key, Object([m])))
  {
    assert |key| == 5 || |key| == 10;
  }

  lemma LoosePlain(key: Text, v: Json)
    requires Loose(key, true)
    ensures Plain(Member(key, v)) && VisitedBy(Member(key, v)) == {}
  {
    hide Literal, Listed;
  }

  // ---- documents with an escaping reference ----------------------------------------------------

  /** What `_declared_schema` returns: a document without repeated names that carries the identity and that
      the audit accepts; its schemas may besides all be typed. */
  ghost predicate Accepted(root: Json, id: Text, typed: bool) {
    DistinctKeys(root) && Field(root, "$id") == Some(Str(id)) && Audited(root) && (typed ==> AllTyped(root))
  }

  /** The names lead out of some accepted document.  The identity of the document is a text, so nothing
      lies below it. */
  predicate LeadsOut(names: seq<Text>, typed: bool) {
    Escapes(names, typed) && names[0] != Literal("$id")
  }

  /** An accepted document with a reference along escaping names, in a schema the audit visits. */
  function Escaping(names: seq<Text>, reference: Text, id: Text): Json
    requires Escapes(names, false)
  {
    var key := if names[0] == Literal("items") then Literal("propertyNames") else Literal("items");
    Object([Witness(names), Member(Literal("$id"), Str(id)), Member(key, Referrer(reference))])
  }

  function Referrer(reference: Text): Json {
    Object([Member(Literal("$ref"), Str(reference))])
  }

  /** A document the audit accepts: every reference in position leads to a schema that the audit has
      visited and accepted. */
  lemma PositionStaysAudited(root: Json, reference: Text)
    requires Audited(root) && START <= reference && Position(Tokens(reference)) && ResolveRef(root, reference).Some?
    ensures ResolveRef(root, reference).value in Visited(root) && Audited(ResolveRef(root, reference).value)
  {
    hide Audited, Visited, Position, Tokens, ResolveRef, Follow;
    var v := ResolveRef(root, reference).value;
    ResolveFollows(root, reference, v);
    PositionVisits(root, Tokens(reference), v);
    VisitedAudited(root, v);
  }

  /** Every reference that leads out leaves the audited part of some document: the document is accepted,
      the audit visits the schema with the reference, and would refuse what the reference names. */
  lemma EscapeLeavesAudit(reference: Text, id: Text, typed: bool, search: (Text, Text) -> bool, parses: Text -> bool)
    requires START <= reference && LeadsOut(Tokens(reference), typed)
    ensures exists root: Json, s: Json ::
              && Accepted(root, id, typed) && s in Visited(root) && Given(s, "$ref") == Some(Str(reference))
              && RefTarget(Env(root, search, parses), s).Some? && !Audited(RefTarget(Env(root, search, parses), s).value)
  {
    hide Literal, Audited, Follow, Escapes, Witness, Tokens, Visited, ResolveRef, Accepted, Given;
    var names := Tokens(reference);
    EscapesAnyway(names, typed);
    var root, s := Escaping(names, reference, id), Referrer(reference);
    EscapingAccepted(names, reference, id, typed);
    EscapesSomewhere(names, typed);
    var v := WitnessLeads(names);
    WitnessAudited(names);
    FollowFirstOf(root.members, names);
    ResolveFollows(root, reference, v);
    ReferrerRefers(reference);
    assert RefTarget(Env(root, search, parses), s) == Some(v);
  }

  lemma EscapesSomewhere(names: seq<Text>, typed: bool)
    requires Escapes(names, typed)
    ensures names != []
  {
  }

  lemma FollowFirstOf(members: seq<Member>, names: seq<Text>)
    requires names != [] && members != [] && members[0].key == names[0]
    ensures Follow(Object(members), names) == Follow(members[0].value, names[1..])
  {
  }

  lemma ReferrerRefers(reference: Text)
    ensures Given(Referrer(reference), "$ref") == Some(Str(reference))
  {
    hide Literal;
  }

  lemma EscapingAccepted(names: seq<Text>, reference: Text, id: Text, typed: bool)
    requires LeadsOut(names, typed) && Escapes(names, false)
    ensures Accepted(Escaping(names, reference, id), id, typed)
    ensures Referrer(reference) in Visited(Escaping(names, reference, id))
  {
    hide Literal, Audited, KeywordAudited, Visited, Witness, Escapes, DistinctKeys, AllTyped;
    var root := Escaping(names, reference, id);
    var key := root.members[2].key;
    WitnessAudited(names);
    WitnessDistinct(names);
    LiteralsDiffer();
    ReferrerAudited(reference);
    IdUnseen();
    UnseenAudited(Literal("$id"), Str(id));
    EnterAudited(key, Referrer(reference));
    ThreeMembers(root.members[0], root.members[1], root.members[2]);
    assert root == Object([root.members[0], root.members[1], root.members[2]]);
    EnterVisits(root, key, Referrer(reference));
    if typed { EscapingTyped(names, reference, id); }
  }

  lemma ThreeMembers(a: Member, b: Member, c: Member)
    requires a.key != b.key && a.key != c.key && b.key != c.key
    requires KeywordAudited(a) && KeywordAudited(b) && KeywordAudited(c)
    requires DistinctKeys(a.value) && DistinctKeys(b.value) && DistinctKeys(c.value)
    ensures var s := Object([a, b, c]);
            DistinctKeys(s) && Audited(s) && Get(s, b.key) == Some(b.value) && Get(s, c.key) == Some(c.value)
  {
    hide KeywordAudited;
    assert [a, b, c][1..] == [b, c] && [b, c][1..] == [c];
    assert Find([c], c.key) == Some(c.value);
    assert Find([b, c], b.key) == Some(b.value) && Find([b, c], c.key) == Find([c], c.key);
  }

  lemma ReferrerAudited(reference: Text)
    ensures Audited(Referrer(reference)) && DistinctKeys(Referrer(reference)) && DistinctKeys(Str(reference))
    ensures forall id: Text :: DistinctKeys(Str(id))
  {
    hide Literal, KeywordAudited, Unseen;
    RefUnseen();
    UnseenAudited(Literal("$ref"), Str(reference));
    OneMemberAudited(Member(Literal("$ref"), Str(reference)));
    OneDistinct(Member(Literal("$ref"), Str(reference)));
  }

  lemma EscapingTyped(names: seq<Text>, reference: Text, id: Text)
    requires Escapes(names, true) && Escapes(names, false)
    ensures AllTyped(Escaping(names, reference, id))
  {
    hide Literal, Listed, Enters, Escapes, Witness, Typed, Visited, VisitedBy, Plain;
    var root := Escaping(names, reference, id);
    var key := root.members[2].key;
    WitnessTyped(names);
    IdPlain(id, reference);
    EnterPlain(key, Referrer(reference)) by { ItemsEnter(); }
    VisitedByEnter(key, Referrer(reference)) by { ItemsEnter(); }
    PlainTyped(root);
    VisitedMembers(root);
  }

  lemma ItemsEnter()
    ensures Enters(Literal("items")) && Enters(Literal("propertyNames"))
  {
    hide Literal;
  }

  lemma VisitedMembers(s: Json)
    requires s.Object?
    ensures forall x <- Visited(s) :: x == s || exists i :: 0 <= i < |s.members| && x in VisitedBy(s.members[i])
  {
    hide VisitedBy;
  }

  lemma IdPlain(id: Text, reference: Text)
    ensures Plain(Member(Literal("$id"), Str(id))) && VisitedBy(Member(Literal("$id"), Str(id))) == {}
    ensures forall x <- Visited(Referrer(reference)) :: Typed(x)
  {
    hide Typed, Unseen;
    IdUnseen();
    RefUnseen();
    LoosePlain(Literal("$id"), Str(id)) by { DollarLoose(); }
    LoosePlain(Literal("$ref"), Str(reference)) by { DollarLoose(); }
    OneTyped(Member(Literal("$ref"), Str(reference)));
  }

  lemma DollarLoose()
    ensures Loose(Literal("$id"), true) && Loose(Literal("$ref"), true)
  {
    hide Unseen;
    IdUnseen();
    RefUnseen();
    assert |Literal("$id")| == 3 && |Literal("$ref")| == 4 && Literal("$ref")[0] == '$' as int;
    assert Literal("enum")[0] == 'e' as int;
  }

  /** The audit of an accepted document covers what this reference names. */
  ghost predicate StaysAudited(reference: Text, id: Text, typed: bool) {
    forall root: Json, v: Json :: Accepted(root, id, typed) && ResolveRef(root, reference) == Some(v) ==> Audited(v)
  }

  /** What an accepted document promises of its references can be read off their text: a reference names an
      audited schema in every accepted document exactly when it does not lead out; and one that resolves
      in some accepted document at all does so exactly when it is in position. */
  lemma ReferenceAudited(reference: Text, id: Text, typed: bool)
    requires START <= reference
    ensures StaysAudited(reference, id, typed) <==> !LeadsOut(Tokens(reference), typed)
    ensures (exists root: Json :: Accepted(root, id, typed) && ResolveRef(root, reference).Some?) ==>
              (StaysAudited(reference, id, typed) <==> Position(Tokens(reference)))
  {
    hide Audited, ResolveRef, Tokens, Escapes, Position, Visited, Follow, DistinctKeys, AllTyped;
    if LeadsOut(Tokens(reference), typed) {
      EscapeLeavesAudit(reference, id, typed, (p, t) => false, t => false);
    } else {
      forall root: Json, v: Json | Accepted(root, id, typed) && ResolveRef(root, reference) == Some(v) ensures Audited(v) {
        ResolvesInPosition(root, reference, v, id, typed);
        PositionStaysAudited(root, reference);
      }
    }
    if exists root: Json :: Accepted(root, id, typed) && ResolveRef(root, reference).Some? {
      var root: Json :| Accepted(root, id, typed) && ResolveRef(root, reference).Some?;
      ResolvesInPosition(root, reference, ResolveRef(root, reference).value, id, typed);
      if Position(Tokens(reference)) { PositionsDoNotEscape(Tokens(reference), typed); }
    }
  }

  lemma ResolvesInPosition(root: Json, reference: Text, v: Json, id: Text, typed: bool)
    requires START <= reference && Accepted(root, id, typed) && ResolveRef(root, reference) == Some(v)
    ensures Position(Tokens(reference)) || LeadsOut(Tokens(reference), typed)
  {
    hide Audited, ResolveRef, Tokens, Escapes, Position, DistinctKeys, AllTyped, Literal;
    var names := Tokens(reference);
    ResolveFollows(root, reference, v);
    PositionOrEscapes(root, names, v, typed);
    if Escapes(names, typed) {
      EscapesSomewhere(names, typed);
      if names[0] == Literal("$id") { FollowsObject(Get(root, names[0]).value, names[1..], v); }
    }
  }

  /** No names are both in position and escaping. */
  lemma PositionsDoNotEscape(names: seq<Text>, typed: bool)
    requires Position(names)
    ensures !Escapes(names, typed)
  {
    hide Literal, Listed, Enters, Holds, Unseen, Audited, KeywordAudited, Follow, Position, Escapes, Witness, Visited;
    if Escapes(names, typed) {
      EscapesAnyway(names, typed);
      EscapesSomewhere(names, typed);
      var v := WitnessLeads(names);
      WitnessAudited(names);
      var root := Object([Witness(names)]);
      OneMemberAudited(Witness(names));
      FollowFirst(Witness(names), names);
      PositionVisits(root, names, v);
      VisitedAudited(root, v);
    }
  }

  lemma OneMemberAudited(m: Member)
    requires KeywordAudited(m)
    ensures Audited(Object([m]))
  {
    hide KeywordAudited;
  }

  // ---- a document that passed the audit --------------------------------------------------------

  /** The reference of this schema, if it has one, does not lead out. */
  predicate Keeps(s: Json) {
    match Given(s, "$ref")
    case Some(Str(reference)) => START <= reference ==> !LeadsOut(Tokens(reference), true)
    case _ => true
  }

  /** An accepted document with typed schemas, in which no reference leads out. */
  ghost predicate Sound(root: Json, id: Text) {
    Accepted(root, id, true) && forall s <- Visited(root) :: Keeps(s)
  }

  /** Then the validator reaches only schemas that the audit visited. */
  lemma AuditedIsClosed(env: Env, id: Text)
    requires Sound(env.root, id)
    ensures Closed(env, Visited(env.root))
  {
    hide Audited, Visited, Typed, Keeps, Edge, Alternatives, RefTarget, Given, MemberRule;
    forall s | s in Visited(env.root)
      ensures s.Object? && (forall t :: Edge(env, s, t) ==> t in Visited(env.root))
      ensures Given(s, "items").Some? ==> Given(s, "items").value in Visited(env.root)
      ensures Given(s, "propertyNames").Some? ==> Given(s, "propertyNames").value in Visited(env.root)
      ensures forall key :: MemberRule(s, key).Checked? ==> MemberRule(s, key).schema in Visited(env.root)
    {
      VisitedAudited(env.root, s);
      AuditedObject(s);
      StepsVisited(env.root, s, []);
      forall key { StepsVisited(env.root, s, key); }
      forall t | Edge(env, s, t) ensures t in Visited(env.root) {
        EdgeVisited(env, id, s, t);
      }
    }
  }

  lemma AuditedObject(s: Json)
    requires Audited(s)
    ensures s.Object?
  {
  }

  lemma StepsVisited(root: Json, s: Json, key: Text)
    requires Audited(root) && s in Visited(root)
    ensures forall i :: 0 <= i < |Alternatives(s)| ==> Alternatives(s)[i] in Visited(root)
    ensures Given(s, "items").Some? ==> Given(s, "items").value in Visited(root)
    ensures Given(s, "propertyNames").Some? ==> Given(s, "propertyNames").value in Visited(root)
    ensures MemberRule(s, key).Checked? ==> MemberRule(s, key).schema in Visited(root)
  {
    hide Audited, Visited, Alternatives, Given, MemberRule;
    VisitedAudited(root, s);
    AuditCoversSteps(s, key);
    forall x | x in Visited(s) ensures x in Visited(root) { VisitedTransitive(root, s, x); }
  }

  lemma EdgeVisited(env: Env, id: Text, s: Json, t: Json)
    requires Accepted(env.root, id, true) && s in Visited(env.root) && Keeps(s) && Edge(env, s, t)
    requires forall i :: 0 <= i < |Alternatives(s)| ==> Alternatives(s)[i] in Visited(env.root)
    ensures t in Visited(env.root)
  {
    hide Audited, Visited, Alternatives, Given, LeadsOut, Position, Tokens, ResolveRef, Follow, DistinctKeys, AllTyped;
    if RefTarget(env, s) == Some(t) {
      var reference := Given(s, "$ref").value.text;
      ResolveFollows(env.root, reference, t);
      ResolvesInPosition(env.root, reference, t, id, true);
      PositionStaysAudited(env.root, reference);
    }
  }

  /** A sound document without cycles of same-value steps has a ranking, and it ranks the document
      itself. */
  lemma SoundIsStratified(env: Env, id: Text) returns (rank: Ranking)
    requires Sound(env.root, id) && Acyclic(env, Visited(env.root))
    ensures env.root in rank && Stratified(env, rank)
  {
    hide Sound, Visited, Acyclic, Stratified;
    AuditedIsClosed(env, id);
    rank := AcyclicIsStratified(env, Visited(env.root));
    VisitedSelf(env.root);
  }

  /** `_validate_declared_schema`: for such a document validation ends, and its verdict is the meaning of
      the schema under any ranking whatever. */
  method ValidateDeclared(record: Json, env: Env, ghost id: Text) returns (ok: bool)
    requires Sound(env.root, id) && Acyclic(env, Visited(env.root))
    ensures exists rank :: Stratified(env, rank) && env.root in rank
    ensures forall rank: Ranking | Stratified(env, rank) && env.root in rank :: ok <==> Satisfies(record, env.root, env, rank)
  {
    hide Sound, Visited, Acyclic, Stratified, Satisfies;
    ghost var rank := SoundIsStratified(env, id);
    ok := ValidateNode(record, env.root, env, rank);
    forall other: Ranking | Stratified(env, other) && env.root in other
      ensures ok <==> Satisfies(record, env.root, env, other)
    {
      RankIrrelevant(record, env.root, env, rank, other);
    }
  }

  // ---- the keywords are different words --------------------------------------------------------

  lemma NothingListed()
    ensures !Listed([], SUPPORTED)
  {
    assert forall i :: 0 <= i < |SUPPORTED| ==> |Literal(SUPPORTED[i])| == |SUPPORTED[i]| > 0;
  }

  lemma LiteralsDiffer()
    ensures Literal("items") != Literal("propertyNames")
    ensures Literal("$id") != Literal("items") && Literal("$id") != Literal("propertyNames")
  {
  }

  lemma EntersAlone(key: Text)
    requires Enters(key)
    ensures Listed(key, SUPPORTED) && !Holds(key)
    ensures key != Literal("format") && key != Literal("type") && key != Literal("anyOf")
  {
    assert SUPPORTED[13] == "items" && SUPPORTED[12] == "propertyNames" && SUPPORTED[11] == "additionalProperties";
    assert |key| == 5 || |key| == 13 || |key| == 20;
    assert |key| == 5 ==> key[0] == 'i' as int;
    assert Literal("anyOf")[0] == 'a' as int && Literal("$defs")[0] == '$' as int;
  }

  lemma HoldsAlone(key: Text)
    requires Holds(key)
    ensures Listed(key, SUPPORTED) && !Enters(key)
    ensures key != Literal("format") && key != Literal("type") && key != Literal("anyOf")
  {
    assert SUPPORTED[3] == "$defs" && SUPPORTED[10] == "properties";
    assert |key| == 5 || |key| == 10;
    assert |key| == 5 ==> key[0] == '$' as int;
    assert Literal("anyOf")[0] == 'a' as int && Literal("items")[0] == 'i' as int;
  }

  lemma AnyOfAlone()
    ensures !Holds(Literal("anyOf")) && !Enters(Literal("anyOf"))
  {
    var key := Literal("anyOf");
    if Holds(key) { HoldsAlone(key); }
    if Enters(key) { EntersAlone(key); }
  }

  lemma IdUnseen()
    ensures Unseen(Literal("$id"))
  {
    assert SUPPORTED[1] == "$id" && |Literal("$id")| == 3;
  }

  lemma RefUnseen()
    ensures Unseen(Literal("$ref"))
  {
    var key := Literal("$ref");
    assert SUPPORTED[2] == "$ref" && |key| == 4 && key[0] == '$' as int && Literal("type")[0] == 't' as int;
  }
}
