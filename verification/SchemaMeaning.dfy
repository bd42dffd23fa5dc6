// What an accepted value looks like, keyword by keyword: a schema is the conjunction of its members.
module SchemaMeaning {
  import opened Unicode
  import opened Wrappers
  import opened Json
  import opened JsonPointer
  import opened Schema
  import opened JsonMeaning

  /** The names a schema may give the kind of a value. */
  function KindNames(v: Json): set<Text> {
    match v
    case Null => {Literal("null")}
    case Bool(_) => {Literal("boolean")}
    case Num(_) => {Literal("integer"), Literal("number")}
    case Str(_) => {Literal("string")}
    case List(_) => {Literal("array")}
    case Object(_) => {Literal("object")}
  }

  /** The value is accepted against one of the schemas in scope. */
  ghost predicate Sat(v: Json, s: Json, env: Env, rank: Ranking)
    requires Stratified(env, rank)
  {
    s in rank && Satisfies(v, s, env, rank)
  }

  ghost predicate HasKey(members: seq<Member>, key: Text) {
    exists m <- members :: m.key == key
  }

  /** A keyword with the value null counts as absent, here and below. */
  ghost predicate ReferenceMet(v: Json, k: Member, env: Env, rank: Ranking)
    requires Stratified(env, rank)
  {
    k.key == Literal("$ref") && k.value != Null ==>
      k.value.Str? && exists t: Json :: ResolveRef(env.root, k.value.text) == Some(t) && Sat(v, t, env, rank)
  }

  ghost predicate AlternativesMet(v: Json, k: Member, env: Env, rank: Ranking)
    requires Stratified(env, rank)
  {
    k.key == Literal("anyOf") && k.value != Null ==> k.value.List? && exists t <- k.value.items :: Sat(v, t, env, rank)
  }

  /** `const`, `enum` and `type`. */
  ghost predicate ValueMet(v: Json, k: Member) {
    && (k.key == Literal("const") ==> JsonEqual(v, k.value))
    && (k.key == Literal("enum") ==> k.value.List? && exists x <- k.value.items :: JsonEqual(v, x))
    && (k.key == Literal("type") ==> KindsMet(v, k.value))
  }

  ghost predicate KindsMet(v: Json, w: Json) {
    match w
    case Null => true
    case Str(name) => name in KindNames(v)
    case List(names) => (forall n <- names :: n.Str?) && exists n <- names :: n.Str? && n.text in KindNames(v)
    case _ => false
  }

  /** The bound a numeric keyword sets, met from above or from below. */
  predicate AtLeast(n: int, w: Json) {
    w.Num? ==> w.value <= n
  }

  predicate AtMost(n: int, w: Json) {
    w.Num? ==> n <= w.value
  }

  ghost predicate TextMet(text: Text, k: Member, env: Env) {
    && (k.key == Literal("minLength") ==> AtLeast(|text|, k.value))
    && (k.key == Literal("maxLength") ==> AtMost(|text|, k.value))
    && (k.key == Literal("pattern") && k.value.Str? ==> env.search(k.value.text, text))
    && (k.key == Literal("format") && k.value == Str(Literal("date-time")) ==> env.parses(text))
  }

  ghost predicate ListMet(items: seq<Json>, k: Member, env: Env, rank: Ranking)
    requires Stratified(env, rank)
  {
    && (k.key == Literal("minItems") ==> AtLeast(|items|, k.value))
    && (k.key == Literal("maxItems") ==> AtMost(|items|, k.value))
    && (k.key == Literal("items") && k.value != Null ==> forall x <- items :: Sat(x, k.value, env, rank))
  }

  ghost predicate CountMet(members: seq<Member>, k: Member) {
    && (k.key == Literal("minProperties") ==> AtLeast(|members|, k.value))
    && (k.key == Literal("maxProperties") ==> AtMost(|members|, k.value))
    && (k.key == Literal("required") && k.value.List? ==>
          forall x <- k.value.items :: x.Str? ==> HasKey(members, x.text))
  }

  /** A name that the schema's `properties` list. */
  ghost predicate Declared(s: Json, key: Text) {
    s.Object? && exists p <- s.members :: p.key == Literal("properties") && p.value.Object? && HasKey(p.value.members, key)
  }

  /** What `properties` and `additionalProperties` ask of one member of an object. */
  ghost predicate RuleMet(m: Member, k: Member, s: Json, env: Env, rank: Ranking)
    requires Stratified(env, rank)
  {
    && (k.key == Literal("properties") && k.value.Object? ==>
          forall p <- k.value.members :: p.key == m.key ==> Sat(m.value, p.value, env, rank))
    && (k.key == Literal("additionalProperties") && k.value == Bool(false) ==> Declared(s, m.key))
    && (k.key == Literal("additionalProperties") && k.value.Object? ==> Declared(s, m.key) || Sat(m.value, k.value, env, rank))
  }

  ghost predicate NameMet(m: Member, k: Member, env: Env, rank: Ranking)
    requires Stratified(env, rank)
  {
    k.key == Literal("propertyNames") && k.value != Null ==> Sat(Str(m.key), k.value, env, rank)
  }

  ghost predicate ObjectMet(members: seq<Member>, k: Member, s: Json, env: Env, rank: Ranking)
    requires Stratified(env, rank)
  {
    forall m <- members :: RuleMet(m, k, s, env, rank) && NameMet(m, k, env, rank)
  }

  predicate NumberMet(n: int, k: Member) {
    && (k.key == Literal("minimum") ==> AtLeast(n, k.value))
    && (k.key == Literal("maximum") ==> AtMost(n, k.value))
  }

  /** What one member of a schema asks of a value; the schema itself matters to `additionalProperties` only. */
  ghost predicate KeywordMet(v: Json, k: Member, s: Json, env: Env, rank: Ranking)
    requires Stratified(env, rank)
  {
    && ReferenceMet(v, k, env, rank) && AlternativesMet(v, k, env, rank) && ValueMet(v, k)
    && (v.Str? ==> TextMet(v.text, k, env))
    && (v.List? ==> ListMet(v.items, k, env, rank))
    && (v.Object? ==> CountMet(v.members, k) && ObjectMet(v.members, k, s, env, rank))
    && (v.Num? ==> NumberMet(v.value, k))
  }

  // ---- one keyword at a time -------------------------------------------------------------------

  /** With distinct names, a member of a schema is its keyword. */
  lemma FieldIs(s: Json, name: string)
    requires s.Object? && DistinctMembers(s.members)
    ensures forall k <- s.members :: k.key == Literal(name) ==> Field(s, name) == Some(k.value)
    ensures Field(s, name).Some? ==> Member(Literal(name), Field(s, name).value) in s.members
  {
    hide Literal;
    FindAt(s.members, Literal(name));
    forall k | k in s.members && k.key == Literal(name) ensures Field(s, name) == Some(k.value) {
      var i :| 0 <= i < |s.members| && s.members[i] == k;
      FindMember(s.members, i);
    }
    if Field(s, name).Some? {
      var i :| 0 <= i < |s.members| && s.members[i].key == Literal(name) && s.members[i].value == Field(s, name).value;
      assert s.members[i] == Member(Literal(name), Field(s, name).value);
    }
  }

  lemma HasKeyFinds(members: seq<Member>, key: Text)
    ensures HasKey(members, key) <==> Find(members, key).Some?
  {
    FindAt(members, key);
    if Find(members, key).Some? {
      var i :| 0 <= i < |members| && members[i].key == key && members[i].value == Find(members, key).value;
      assert members[i] in members;
    }
  }

  lemma RefMet(v: Json, s: Json, env: Env, rank: Ranking)
    requires Stratified(env, rank) && s in rank && s.Object? && DistinctMembers(s.members)
    ensures RefOk(v, s, env, rank) <==> forall k <- s.members :: ReferenceMet(v, k, env, rank)
  {
    hide Literal, Satisfies, ResolveRef, DistinctMembers, Typed, MemberRule, Alternatives;
    assert Descends(env, rank, s);
    FieldIs(s, "$ref");
    if Field(s, "$ref").Some? {
      var k := Member(Literal("$ref"), Field(s, "$ref").value);
      assert RefOk(v, s, env, rank) <==> ReferenceMet(v, k, env, rank);
    }
  }

  lemma AnyOfMet(v: Json, s: Json, env: Env, rank: Ranking)
    requires Stratified(env, rank) && s in rank && s.Object? && DistinctMembers(s.members)
    ensures AnyOfOk(v, s, env, rank) <==> forall k <- s.members :: AlternativesMet(v, k, env, rank)
  {
    hide Literal, Satisfies, DistinctMembers, Typed, MemberRule, RefTarget;
    assert Descends(env, rank, s);
    FieldIs(s, "anyOf");
    if Field(s, "anyOf").Some? {
      var k := Member(Literal("anyOf"), Field(s, "anyOf").value);
      if k.value.List? { SomeAlternative(v, s, env, rank, k.value.items); }
      assert AnyOfOk(v, s, env, rank) <==> AlternativesMet(v, k, env, rank);
    }
  }

  lemma SomeAlternative(v: Json, s: Json, env: Env, rank: Ranking, items: seq<Json>)
    requires Stratified(env, rank) && s in rank && Alternatives(s) == items
    ensures (exists i :: 0 <= i < |items| && items[i] in rank && Satisfies(v, items[i], env, rank))
       <==> exists t <- items :: Sat(v, t, env, rank)
  {
    hide Satisfies;
    if exists t <- items :: Sat(v, t, env, rank) {
      var t :| t in items && Sat(v, t, env, rank);
      var i :| 0 <= i < |items| && items[i] == t;
    }
    forall i | 0 <= i < |items| ensures items[i] in items { }
  }

  lemma KindNamed(v: Json, name: Text)
    ensures TypeMatches(v, name) <==> name in KindNames(v)
  {
    hide Literal;
  }

  lemma ValuesMet(v: Json, s: Json)
    requires s.Object? && DistinctMembers(s.members)
    ensures ConstOk(v, s) && EnumOk(v, s) && TypeOk(v, s) <==> forall k <- s.members :: ValueMet(v, k)
  {
    hide Literal, JsonEqual, KindsMet, TypeOk, DistinctMembers;
    FieldIs(s, "const");
    FieldIs(s, "enum");
    FieldIs(s, "type");
    TypeMet(v, s);
    if forall k <- s.members :: ValueMet(v, k) {
      if Field(s, "const").Some? { assert ValueMet(v, Member(Literal("const"), Field(s, "const").value)); }
      if Field(s, "enum").Some? { assert ValueMet(v, Member(Literal("enum"), Field(s, "enum").value)); }
      if Field(s, "type").Some? { assert ValueMet(v, Member(Literal("type"), Field(s, "type").value)); }
    }
  }

  lemma TypeMet(v: Json, s: Json)
    ensures TypeOk(v, s) <==> match Field(s, "type") case None => true case Some(w) => KindsMet(v, w)
  {
    hide Literal, TypeMatches, KindNames;
    forall name: Text { KindNamed(v, name); }
  }

  /** The keywords that bound a number. */
  lemma LimitsMet(s: Json, low: string, default: int, high: string, n: int)
    requires s.Object? && DistinctMembers(s.members) && default <= n
    ensures Limit(s, low, default) <= n <= Limit(s, high, n) <==>
              && (forall k <- s.members :: k.key == Literal(low) ==> AtLeast(n, k.value))
              && (forall k <- s.members :: k.key == Literal(high) ==> AtMost(n, k.value))
  {
    hide Literal, DistinctMembers;
    FieldIs(s, low);
    FieldIs(s, high);
  }

  lemma TextsMet(text: Text, s: Json, env: Env)
    requires s.Object? && DistinctMembers(s.members)
    ensures TextOk(Str(text), s, env) <==> forall k <- s.members :: TextMet(text, k, env)
  {
    hide Literal, DistinctMembers, AtLeast, AtMost;
    LimitsMet(s, "minLength", 0, "maxLength", |text|);
    FieldIs(s, "pattern");
    FieldIs(s, "format");
  }

  lemma ListsMet(items: seq<Json>, s: Json, env: Env, rank: Ranking)
    requires Stratified(env, rank) && s in rank && s.Object? && DistinctMembers(s.members)
    ensures ItemCountOk(List(items), s) && ItemsOk(List(items), s, env, rank) <==> forall k <- s.members :: ListMet(items, k, env, rank)
  {
    hide Literal, Satisfies, DistinctMembers, Typed, MemberRule, RefTarget, Alternatives, AtLeast, AtMost, Limit, Depth;
    assert Descends(env, rank, s);
    LimitsMet(s, "minItems", 0, "maxItems", |items|);
    FieldIs(s, "items");
    EachItem(items, s, env, rank);
  }

  lemma EachItem(items: seq<Json>, s: Json, env: Env, rank: Ranking)
    requires Stratified(env, rank) && s in rank
    ensures ItemsOk(List(items), s, env, rank)
       <==> (Given(s, "items").Some? ==> forall x <- items :: Sat(x, Given(s, "items").value, env, rank))
  {
    hide Literal, Satisfies, Typed, MemberRule, RefTarget, Alternatives, Depth, Given;
    assert Descends(env, rank, s);
    if Given(s, "items").Some? {
      if ItemsOk(List(items), s, env, rank) {
        forall x | x in items ensures Sat(x, Given(s, "items").value, env, rank) {
          var i :| 0 <= i < |items| && items[i] == x;
          ChildIsShallower(List(items), i);
        }
      }
      forall i | 0 <= i < |items| ensures items[i] in items { }
    }
  }

  lemma CountsMet(members: seq<Member>, s: Json)
    requires s.Object? && DistinctMembers(s.members)
    ensures MembersPresent(Object(members), s) <==> forall k <- s.members :: CountMet(members, k)
  {
    hide Literal, DistinctMembers, AtLeast, AtMost, Limit, Find;
    LimitsMet(s, "minProperties", 0, "maxProperties", |members|);
    FieldIs(s, "required");
    forall key: Text { HasKeyFinds(members, key); }
    if Field(s, "required").Some? {
      var k := Member(Literal("required"), Field(s, "required").value);
      if k.value.List? { forall i | 0 <= i < |k.value.items| ensures k.value.items[i] in k.value.items { } }
    }
  }

  lemma NumbersMet(n: int, s: Json)
    requires s.Object? && DistinctMembers(s.members)
    ensures IntegerOk(Num(n), s) <==> forall k <- s.members :: NumberMet(n, k)
  {
    hide Literal, DistinctMembers, AtLeast, AtMost, Limit;
    LimitsMet(s, "minimum", n, "maximum", n);
  }

  /** Distinct names in the schema and among its `properties`. */
  predicate DistinctSchema(s: Json) {
    && s.Object? && DistinctMembers(s.members)
    && (Field(s, "properties").Some? && Field(s, "properties").value.Object? ==>
          DistinctMembers(Field(s, "properties").value.members))
  }

  lemma DistinctIsSchema(s: Json)
    requires DistinctKeys(s) && s.Object?
    ensures DistinctSchema(s)
  {
    hide Literal;
    FindAt(s.members, Literal("properties"));
  }

  lemma DeclaredFinds(s: Json, key: Text)
    requires DistinctSchema(s)
    ensures Declared(s, key) <==> Field(s, "properties").Some? && Get(Field(s, "properties").value, key).Some?
  {
    hide Literal, DistinctMembers, HasKey, Find;
    FieldIs(s, "properties");
    if Field(s, "properties").Some? && Field(s, "properties").value.Object? {
      HasKeyFinds(Field(s, "properties").value.members, key);
    }
  }

  lemma RulesMet(m: Member, s: Json, env: Env, rank: Ranking)
    requires Stratified(env, rank) && s in rank && DistinctSchema(s)
    ensures MemberOk(m, s, env, rank) <==> forall k <- s.members :: RuleMet(m, k, s, env, rank)
  {
    hide Literal, Satisfies, DistinctMembers, Typed, RefTarget, Alternatives, Declared, Find, MemberOk;
    FieldIs(s, "properties");
    FieldIs(s, "additionalProperties");
    DeclaredFinds(s, m.key);
    PropertyMet(m, s, env, rank);
    AdditionalMet(m, s, env, rank);
    if forall k <- s.members :: RuleMet(m, k, s, env, rank) {
      if Field(s, "properties").Some? {
        assert RuleMet(m, Member(Literal("properties"), Field(s, "properties").value), s, env, rank);
      }
      if Field(s, "additionalProperties").Some? {
        assert RuleMet(m, Member(Literal("additionalProperties"), Field(s, "additionalProperties").value), s, env, rank);
      }
    }
  }

  /** A declared member. */
  lemma PropertyMet(m: Member, s: Json, env: Env, rank: Ranking)
    requires Stratified(env, rank) && s in rank && DistinctSchema(s)
    ensures Field(s, "properties").Some? && Field(s, "properties").value.Object? ==>
              var listed := Field(s, "properties").value.members;
              && ((forall p <- listed :: p.key == m.key ==> Sat(m.value, p.value, env, rank)) <==>
                    (Find(listed, m.key).Some? ==> Sat(m.value, Find(listed, m.key).value, env, rank)))
    ensures Field(s, "properties").Some? && Get(Field(s, "properties").value, m.key).Some? ==>
              (MemberOk(m, s, env, rank) <==> Sat(m.value, Get(Field(s, "properties").value, m.key).value, env, rank))
  {
    hide Literal, Satisfies, DistinctMembers, Typed, RefTarget, Alternatives, Declared, Find;
    assert Descends(env, rank, s);
    DeclaredFinds(s, m.key);
    if Field(s, "properties").Some? && Field(s, "properties").value.Object? {
      ListedOnce(Field(s, "properties").value.members, m.key);
    }
  }

  lemma ListedOnce(members: seq<Member>, key: Text)
    requires DistinctMembers(members)
    ensures forall p <- members :: p.key == key ==> Find(members, key) == Some(p.value)
    ensures Find(members, key).Some? ==> Member(key, Find(members, key).value) in members
  {
    FindAt(members, key);
    forall p | p in members && p.key == key ensures Find(members, key) == Some(p.value) {
      var i :| 0 <= i < |members| && members[i] == p;
      FindMember(members, i);
    }
    if Find(members, key).Some? {
      var i :| 0 <= i < |members| && members[i].key == key && members[i].value == Find(members, key).value;
      assert members[i] == Member(key, Find(members, key).value);
    }
  }

  /** A member that is not declared. */
  lemma AdditionalMet(m: Member, s: Json, env: Env, rank: Ranking)
    requires Stratified(env, rank) && s in rank && DistinctSchema(s)
    ensures !Declared(s, m.key) ==>
              (MemberOk(m, s, env, rank) <==>
                 && Field(s, "additionalProperties") != Some(Bool(false))
                 && (Field(s, "additionalProperties").Some? && Field(s, "additionalProperties").value.Object? ==>
                       Sat(m.value, Field(s, "additionalProperties").value, env, rank)))
  {
    hide Literal, Satisfies, DistinctMembers, Typed, RefTarget, Alternatives, Declared, Find;
    assert Descends(env, rank, s);
    DeclaredFinds(s, m.key);
  }

  lemma NamesMet(members: seq<Member>, s: Json, env: Env, rank: Ranking)
    requires Stratified(env, rank) && s in rank && DistinctSchema(s)
    ensures NamesOk(Object(members), s, env, rank)
       <==> forall k <- s.members, m <- members :: NameMet(m, k, env, rank)
  {
    hide Literal, Satisfies, DistinctMembers, Typed, MemberRule, RefTarget, Alternatives, Depth;
    assert Descends(env, rank, s);
    FieldIs(s, "propertyNames");
    if Given(s, "propertyNames").Some? {
      forall i | 0 <= i < |members| ensures members[i] in members { NameIsShallower(Object(members), i); }
      if NamesOk(Object(members), s, env, rank) {
        forall m | m in members ensures Sat(Str(m.key), Given(s, "propertyNames").value, env, rank) {
          var i :| 0 <= i < |members| && members[i] == m;
          NameIsShallower(Object(members), i);
        }
      }
      if forall k <- s.members, m <- members :: NameMet(m, k, env, rank) {
        var k := Member(Literal("propertyNames"), Given(s, "propertyNames").value);
        forall m | m in members ensures Sat(Str(m.key), k.value, env, rank) { assert NameMet(m, k, env, rank); }
      }
    }
  }

  lemma ObjectsMet(members: seq<Member>, s: Json, env: Env, rank: Ranking)
    requires Stratified(env, rank) && s in rank && DistinctSchema(s)
    ensures MembersOk(Object(members), s, env, rank) && NamesOk(Object(members), s, env, rank)
       <==> forall k <- s.members :: ObjectMet(members, k, s, env, rank)
  {
    hide MemberOk, RuleMet, NameMet, NamesOk, DistinctSchema, Depth;
    forall m | m in members { RulesMet(m, s, env, rank); }
    NamesMet(members, s, env, rank);
    forall i | 0 <= i < |members| ensures members[i] in members { ChildIsShallower(Object(members), i); }
    if MembersOk(Object(members), s, env, rank) {
      forall m | m in members ensures MemberOk(m, s, env, rank) {
        var i :| 0 <= i < |members| && members[i] == m;
      }
    }
  }

  // ---- the whole schema ------------------------------------------------------------------------

  /** A value is accepted exactly when it meets every member of the schema, one by one: what each keyword
      asks is read off its name and value, and of the others only `properties` matters, to
      `additionalProperties`. */
  lemma SatisfiesIsConjunction(v: Json, s: Json, env: Env, rank: Ranking)
    requires Stratified(env, rank) && s in rank && DistinctKeys(s)
    ensures Satisfies(v, s, env, rank) <==> forall k <- s.members :: KeywordMet(v, k, s, env, rank)
  {
    hide Literal, RefOk, AnyOfOk, ConstOk, EnumOk, TypeOk, TextOk, ItemCountOk, MembersPresent, IntegerOk, ItemsOk, MembersOk,
      NamesOk, Typed, ReferenceMet, AlternativesMet, ValueMet, TextMet, ListMet, CountMet, ObjectMet, NumberMet, DistinctKeys;
    assert Descends(env, rank, s);
    DistinctIsSchema(s);
    RefMet(v, s, env, rank);
    AnyOfMet(v, s, env, rank);
    ValuesMet(v, s);
    OtherKinds(v, s, env, rank);
    match v
    case Str(text) => TextsMet(text, s, env);
    case List(items) => ListsMet(items, s, env, rank);
    case Object(members) =>
      CountsMet(members, s);
      ObjectsMet(members, s, env, rank);
    case Num(n) => NumbersMet(n, s);
    case _ =>
  }

  lemma OtherKinds(v: Json, s: Json, env: Env, rank: Ranking)
    requires Stratified(env, rank) && s in rank
    ensures !v.Str? ==> TextOk(v, s, env)
    ensures !v.List? ==> ItemCountOk(v, s) && ItemsOk(v, s, env, rank)
    ensures !v.Object? ==> MembersPresent(v, s) && MembersOk(v, s, env, rank) && NamesOk(v, s, env, rank)
    ensures !v.Num? ==> IntegerOk(v, s)
  {
    hide Stratified, Satisfies;
  }

  /** Under `additionalProperties: false` an accepted object has declared members only. */
  lemma NothingUndeclared(v: Json, s: Json, env: Env, rank: Ranking)
    requires Stratified(env, rank) && s in rank && DistinctKeys(s) && v.Object?
    requires Satisfies(v, s, env, rank) && Member(Literal("additionalProperties"), Bool(false)) in s.members
    ensures forall m <- v.members ::
              exists p <- s.members :: p.key == Literal("properties") && p.value.Object? && HasKey(p.value.members, m.key)
  {
    hide Literal, Satisfies, DistinctKeys, HasKey;
    SatisfiesIsConjunction(v, s, env, rank);
    var k := Member(Literal("additionalProperties"), Bool(false));
    assert KeywordMet(v, k, s, env, rank);
    forall m | m in v.members ensures Declared(s, m.key) { assert RuleMet(m, k, s, env, rank); }
  }
}
