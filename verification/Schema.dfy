// The recursive schema validator of scanner_attestation.py against a declarative reading of the
// keywords it supports.
module Schema {
  import opened Unicode
  import opened Wrappers
  import opened Json
  import opened JsonPointer

  /** What the validator borrows: regular-expression search and time-stamp parsing. */
  datatype Env = Env(root: Json, search: (Text, Text) -> bool, parses: Text -> bool)

  function Search(env: Env, pattern: Text, t: Text): bool { env.search(pattern, t) }

  function Parses(env: Env, t: Text): bool { env.parses(t) }

  // ---- reading a schema ----------------------------------------------------------------------

  /** `schema[name]`, if the keyword is there. */
  function Field(schema: Json, name: string): Option<Json> {
    Get(schema, Literal(name))
  }

  /** `schema.get(name)` when it is not `None`. */
  function Given(schema: Json, name: string): Option<Json> {
    match Field(schema, name)
    case Some(v) => if v.Null? then None else Some(v)
    case None => None
  }

  function Limit(schema: Json, name: string, default: int): int {
    match Field(schema, name)
    case Some(Num(n)) => n
    case _ => default
  }

  function RefTarget(env: Env, schema: Json): Option<Json> {
    match Given(schema, "$ref")
    case Some(Str(reference)) => ResolveRef(env.root, reference)
    case _ => None
  }

  function Alternatives(schema: Json): seq<Json> {
    match Given(schema, "anyOf")
    case Some(List(items)) => items
    case _ => []
  }

  /** What an object schema says about one member. */
  datatype Rule = Open | Forbidden | Checked(schema: Json)

  function MemberRule(schema: Json, key: Text): Rule {
    var declared := match Field(schema, "properties") case Some(p) => Get(p, key) case None => None;
    match declared
    case Some(inner) => Checked(inner)
    case None =>
      match Field(schema, "additionalProperties")
      case Some(Bool(false)) => Forbidden
      case Some(Object(members)) => Checked(Object(members))
      case _ => Open
  }

  predicate NumberOrAbsent(schema: Json, name: string) {
    match Field(schema, name)
    case Some(v) => v.Num?
    case None => true
  }

  /** Keyword values of the kinds the validator computes with. */
  predicate Typed(schema: Json) {
    && (forall name <- ["minLength", "maxLength", "minItems", "maxItems", "minProperties", "maxProperties", "minimum", "maximum"] ::
          NumberOrAbsent(schema, name))
    && (Field(schema, "pattern").Some? ==> Field(schema, "pattern").value.Str?)
    && (Field(schema, "enum").Some? ==> Field(schema, "enum").value.List?)
    && (Field(schema, "properties").Some? ==> Field(schema, "properties").value.Object?)
    && (match Field(schema, "required")
        case Some(List(items)) => forall i :: 0 <= i < |items| ==> items[i].Str?
        case Some(_) => false
        case None => true)
  }

  // ---- scope and termination -----------------------------------------------------------------

  type Ranking = map<Json, nat>

  /** The schemas in `rank` are closed under every step the validator takes, and the two kinds of
      step that stay on the same value, `$ref` and `anyOf`, lead to a smaller rank: those edges are
      acyclic. */
  ghost predicate Stratified(env: Env, rank: Ranking) {
    forall s <- rank :: Descends(env, rank, s)
  }

  ghost predicate Descends(env: Env, rank: Ranking, s: Json)
    requires s in rank
  {
    && s.Object? && Typed(s)
    && (RefTarget(env, s).Some? ==> RefTarget(env, s).value in rank && rank[RefTarget(env, s).value] < rank[s])
    && (forall i :: 0 <= i < |Alternatives(s)| ==> Alternatives(s)[i] in rank && rank[Alternatives(s)[i]] < rank[s])
    && (Given(s, "items").Some? ==> Given(s, "items").value in rank)
    && (Given(s, "propertyNames").Some? ==> Given(s, "propertyNames").value in rank)
    && (forall key :: MemberRule(s, key).Checked? ==> MemberRule(s, key).schema in rank)
  }

  // ---- equality and types --------------------------------------------------------------------

  /** `_json_equal`: type-sensitive, blind to member order. */
  predicate JsonEqual(left: Json, right: Json) {
    match left
    case Null => right.Null?
    case Bool(b) => right.Bool? && b == right.flag
    case Num(n) => right.Num? && n == right.value
    case Str(t) => right.Str? && t == right.text
    case List(items) =>
      right.List? && |items| == |right.items| && forall i :: 0 <= i < |items| ==> JsonEqual(items[i], right.items[i])
    case Object(members) =>
      && right.Object?
      && (forall i :: 0 <= i < |right.members| ==> Find(members, right.members[i].key).Some?)
      && (forall i :: 0 <= i < |members| ==>
            var other := Find(right.members, members[i].key);
            other.Some? && JsonEqual(members[i].value, other.value))
  }

  /** `_schema_type_matches`. */
  predicate TypeMatches(v: Json, name: Text) {
    || (name == Literal("null") && v.Null?)
    || (name == Literal("object") && v.Object?)
    || (name == Literal("array") && v.List?)
    || (name == Literal("string") && v.Str?)
    || (name == Literal("integer") && v.Num?)
    || (name == Literal("number") && v.Num?)
    || (name == Literal("boolean") && v.Bool?)
  }

  // ---- keywords that look at one value only ----------------------------------------------------

  predicate ConstOk(v: Json, s: Json) {
    Field(s, "const").Some? ==> JsonEqual(v, Field(s, "const").value)
  }

  predicate EnumOk(v: Json, s: Json) {
    match Field(s, "enum")
    case Some(List(items)) => exists i :: 0 <= i < |items| && JsonEqual(v, items[i])
    case Some(_) => false
    case None => true
  }

  predicate TypeOk(v: Json, s: Json) {
    match Given(s, "type")
    case None => true
    case Some(Str(name)) => TypeMatches(v, name)
    case Some(List(names)) =>
      (forall i :: 0 <= i < |names| ==> names[i].Str?) && exists i :: 0 <= i < |names| && TypeMatches(v, names[i].text)
    case Some(_) => false
  }

  predicate TextOk(v: Json, s: Json, env: Env) {
    v.Str? ==>
      && Limit(s, "minLength", 0) <= |v.text| <= Limit(s, "maxLength", |v.text|)
      && (match Field(s, "pattern") case Some(Str(pattern)) => Search(env, pattern, v.text) case _ => true)
      && (Field(s, "format") == Some(Str(Literal("date-time"))) ==> Parses(env, v.text))
  }

  predicate ItemCountOk(v: Json, s: Json) {
    v.List? ==> Limit(s, "minItems", 0) <= |v.items| <= Limit(s, "maxItems", |v.items|)
  }

  predicate MembersPresent(v: Json, s: Json) {
    v.Object? ==>
      && Limit(s, "minProperties", 0) <= |v.members| <= Limit(s, "maxProperties", |v.members|)
      && match Field(s, "required")
         case Some(List(keys)) => forall i :: 0 <= i < |keys| && keys[i].Str? ==> Find(v.members, keys[i].text).Some?
         case _ => true
  }

  predicate IntegerOk(v: Json, s: Json) {
    v.Num? ==> Limit(s, "minimum", v.value) <= v.value <= Limit(s, "maximum", v.value)
  }

  predicate LocalOk(v: Json, s: Json, env: Env) {
    && ConstOk(v, s) && EnumOk(v, s) && TypeOk(v, s) && TextOk(v, s, env) && ItemCountOk(v, s)
    && MembersPresent(v, s) && IntegerOk(v, s)
  }

  // ---- the meaning of a schema ---------------------------------------------------------------

  /** Every keyword is satisfied. */
  ghost predicate Satisfies(v: Json, s: Json, env: Env, rank: Ranking)
    requires Stratified(env, rank) && s in rank
    decreases Depth(v), rank[s], 1
  {
    && RefOk(v, s, env, rank) && AnyOfOk(v, s, env, rank) && LocalOk(v, s, env)
    && ItemsOk(v, s, env, rank) && MembersOk(v, s, env, rank) && NamesOk(v, s, env, rank)
  }

  ghost predicate RefOk(v: Json, s: Json, env: Env, rank: Ranking)
    requires Stratified(env, rank) && s in rank
    decreases Depth(v), rank[s], 0
  {
    assert Descends(env, rank, s);
    match Given(s, "$ref")
    case None => true
    case Some(Str(_)) => RefTarget(env, s).Some? && Satisfies(v, RefTarget(env, s).value, env, rank)
    case Some(_) => false
  }

  ghost predicate AnyOfOk(v: Json, s: Json, env: Env, rank: Ranking)
    requires Stratified(env, rank) && s in rank
    decreases Depth(v), rank[s], 0
  {
    assert Descends(env, rank, s);
    match Given(s, "anyOf")
    case None => true
    case Some(List(_)) => exists i :: 0 <= i < |Alternatives(s)| && Satisfies(v, Alternatives(s)[i], env, rank)
    case Some(_) => false
  }

  ghost predicate ItemsOk(v: Json, s: Json, env: Env, rank: Ranking)
    requires Stratified(env, rank) && s in rank
    decreases Depth(v), rank[s], 0
  {
    assert Descends(env, rank, s);
    v.List? && Given(s, "items").Some? ==>
      forall i :: 0 <= i < |v.items| ==> (ChildIsShallower(v, i); Satisfies(v.items[i], Given(s, "items").value, env, rank))
  }

  ghost predicate MembersOk(v: Json, s: Json, env: Env, rank: Ranking)
    requires Stratified(env, rank) && s in rank
    decreases Depth(v), rank[s], 0
  {
    v.Object? ==> forall i :: 0 <= i < |v.members| ==> (ChildIsShallower(v, i); MemberOk(v.members[i], s, env, rank))
  }

  ghost predicate MemberOk(m: Member, s: Json, env: Env, rank: Ranking)
    requires Stratified(env, rank) && s in rank
    decreases Depth(m.value)
  {
    assert Descends(env, rank, s);
    match MemberRule(s, m.key)
    case Open => true
    case Forbidden => false
    case Checked(inner) => Satisfies(m.value, inner, env, rank)
  }

  ghost predicate NamesOk(v: Json, s: Json, env: Env, rank: Ranking)
    requires Stratified(env, rank) && s in rank
    decreases Depth(v), rank[s], 0
  {
    assert Descends(env, rank, s);
    v.Object? && Given(s, "propertyNames").Some? ==>
      forall i :: 0 <= i < |v.members| ==>
        (NameIsShallower(v, i); Satisfies(Str(v.members[i].key), Given(s, "propertyNames").value, env, rank))
  }

  lemma NameIsShallower(v: Json, i: nat)
    requires v.Object? && i < |v.members|
    ensures Depth(Str(v.members[i].key)) < Depth(v)
  {
    ChildIsShallower(v, i);
  }

  // ---- _validate_schema_node -----------------------------------------------------------------

  /** The validator; `rank` is only a witness that the recursion ends. */
  method ValidateNode(v: Json, s: Json, env: Env, ghost rank: Ranking) returns (ok: bool)
    requires Stratified(env, rank) && s in rank
    ensures ok <==> Satisfies(v, s, env, rank)
    decreases Depth(v), rank[s], 1
  {
    hide RefOk, AnyOfOk, LocalOk, ItemsOk, MembersOk, NamesOk, Stratified;
    ok := ValidateReference(v, s, env, rank);
    if !ok { return; }
    ok := ValidateAlternatives(v, s, env, rank);
    if !ok { return; }
    ok := ValidateLocally(v, s, env);
    if !ok { return; }
    ok := ValidateItems(v, s, env, rank);
    if !ok { return; }
    ok := ValidateMembers(v, s, env, rank);
    if !ok { return; }
    ok := ValidateNames(v, s, env, rank);
  }

  method ValidateReference(v: Json, s: Json, env: Env, ghost rank: Ranking) returns (ok: bool)
    requires Stratified(env, rank) && s in rank
    ensures ok <==> RefOk(v, s, env, rank)
    decreases Depth(v), rank[s], 0
  {
    hide Satisfies, ResolveRef, Depth;
    assert Descends(env, rank, s);
    match Given(s, "$ref")
    case None => return true;
    case Some(Str(reference)) =>
      var target := ResolveRef(env.root, reference);
      if target.None? { return false; }
      ok := ValidateNode(v, target.value, env, rank);
    case Some(_) => return false;
  }

  method ValidateAlternatives(v: Json, s: Json, env: Env, ghost rank: Ranking) returns (ok: bool)
    requires Stratified(env, rank) && s in rank
    ensures ok <==> AnyOfOk(v, s, env, rank)
    decreases Depth(v), rank[s], 0, 1
  {
    hide Satisfies, Depth, Typed, MemberRule, RefTarget;
    assert Descends(env, rank, s);
    match Given(s, "anyOf")
    case None => return true;
    case Some(List(alternatives)) =>
      if alternatives == [] { return false; }
      assert alternatives == Alternatives(s);
      ok := TryEach(v, alternatives, env, rank, rank[s]);
    case Some(_) => return false;
  }

  /** The first alternative that does not raise ends the loop. */
  method TryEach(v: Json, alternatives: seq<Json>, env: Env, ghost rank: Ranking, ghost bound: nat) returns (ok: bool)
    requires Stratified(env, rank)
    requires forall i :: 0 <= i < |alternatives| ==> alternatives[i] in rank && rank[alternatives[i]] < bound
    ensures ok <==> exists i :: 0 <= i < |alternatives| && Satisfies(v, alternatives[i], env, rank)
    decreases Depth(v), bound, 0, 0
  {
    hide Satisfies, Depth, Stratified;
    var i := 0;
    while i < |alternatives|
      invariant 0 <= i <= |alternatives|
      invariant forall j :: 0 <= j < i ==> !Satisfies(v, alternatives[j], env, rank)
    {
      ok := ValidateNode(v, alternatives[i], env, rank);
      if ok { return; }
      i := i + 1;
    }
    ok := false;
  }

  method ValidateLocally(v: Json, s: Json, env: Env) returns (ok: bool)
    ensures ok <==> LocalOk(v, s, env)
  {
    hide ConstOk, EnumOk, TypeOk, TextOk, ItemCountOk, MembersPresent, IntegerOk;
    if !ConstOk(v, s) { return false; }
    if !EnumOk(v, s) { return false; }
    if !TypeOk(v, s) { return false; }
    if !TextOk(v, s, env) { return false; }
    if !ItemCountOk(v, s) { return false; }
    if !MembersPresent(v, s) { return false; }
    return IntegerOk(v, s);
  }

  method ValidateItems(v: Json, s: Json, env: Env, ghost rank: Ranking) returns (ok: bool)
    requires Stratified(env, rank) && s in rank
    ensures ok <==> ItemsOk(v, s, env, rank)
    decreases Depth(v), rank[s], 0
  {
    hide Satisfies, Depth, Typed, MemberRule, RefTarget, Alternatives, Given;
    assert Descends(env, rank, s);
    var items := Given(s, "items");
    if !v.List? || items.None? { return true; }
    var i := 0;
    while i < |v.items|
      invariant 0 <= i <= |v.items|
      invariant forall j :: 0 <= j < i ==> Satisfies(v.items[j], items.value, env, rank)
    {
      ChildIsShallower(v, i);
      ok := ValidateNode(v.items[i], items.value, env, rank);
      if !ok { return; }
      i := i + 1;
    }
    ok := true;
  }

  method ValidateMembers(v: Json, s: Json, env: Env, ghost rank: Ranking) returns (ok: bool)
    requires Stratified(env, rank) && s in rank
    ensures ok <==> MembersOk(v, s, env, rank)
    decreases Depth(v), rank[s], 0
  {
    hide Satisfies, Depth, MemberRule, Typed, RefTarget, Alternatives, Given;
    assert Descends(env, rank, s);
    if !v.Object? { return true; }
    var i := 0;
    while i < |v.members|
      invariant 0 <= i <= |v.members|
      invariant forall j :: 0 <= j < i ==> MemberOk(v.members[j], s, env, rank)
    {
      ChildIsShallower(v, i);
      match MemberRule(s, v.members[i].key) {
        case Open =>
        case Forbidden => return false;
        case Checked(inner) =>
          ok := ValidateNode(v.members[i].value, inner, env, rank);
          if !ok { return; }
      }
      i := i + 1;
    }
    ok := true;
  }

  method ValidateNames(v: Json, s: Json, env: Env, ghost rank: Ranking) returns (ok: bool)
    requires Stratified(env, rank) && s in rank
    ensures ok <==> NamesOk(v, s, env, rank)
    decreases Depth(v), rank[s], 0
  {
    hide Satisfies, Depth, Typed, MemberRule, RefTarget, Alternatives, Given;
    assert Descends(env, rank, s);
    var names := Given(s, "propertyNames");
    if !v.Object? || names.None? { return true; }
    var i := 0;
    while i < |v.members|
      invariant 0 <= i <= |v.members|
      invariant forall j :: 0 <= j < i ==> Satisfies(Str(v.members[j].key), names.value, env, rank)
    {
      NameIsShallower(v, i);
      ok := ValidateNode(Str(v.members[i].key), names.value, env, rank);
      if !ok { return; }
      i := i + 1;
    }
    ok := true;
  }
}
