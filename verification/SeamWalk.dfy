/**
 * The relation tables and the select/include walk of apps/webapp/scripts/runOpsLegacyGuard.ts:
 * which relation keys of a query cross between the run graph and the control plane.
 */
module SeamWalk {
  import opened Wrappers

  // ---------------------------------------------------------------- relation tables

  datatype Field = Field(name: string, baseType: string)

  datatype Model = Model(name: string, fields: seq<Field>)

  /** The control-plane models in schema order, and the names of the run-graph models. */
  datatype Schema = Schema(models: seq<Model>, runGraph: set<string>)

  const PRISMA_SCALARS := {"String", "Boolean", "Int", "BigInt", "Float", "Decimal", "DateTime", "Json", "Bytes"}

  predicate UniqueNames(models: seq<Model>) {
    forall i, j | 0 <= i < j < |models| :: models[i].name != models[j].name
  }

  function Names(models: seq<Model>): set<string> { set m | m in models :: m.name }

  /** A field whose type is another control-plane model. */
  predicate IsRelation(s: Schema, f: Field) { f.baseType !in PRISMA_SCALARS && f.baseType in Names(s.models) }

  predicate OppositeSides(s: Schema, owner: string, f: Field) { (owner in s.runGraph) != (f.baseType in s.runGraph) }

  /** A relation field of `owner` with this name crosses the seam. */
  ghost predicate Crosses(s: Schema, owner: string, relation: string) {
    exists m, f | m in s.models && f in m.fields ::
      m.name == owner && f.name == relation && IsRelation(s, f) && OppositeSides(s, owner, f)
  }

  /** What the last relation field of this name refers to: a table keyed by name keeps that one. */
  function Target(s: Schema, fields: seq<Field>, relation: string): Option<string> {
    if fields == [] then None
    else
      var last := fields[|fields| - 1];
      if IsRelation(s, last) && last.name == relation then Some(last.baseType) else Target(s, fields[..|fields| - 1], relation)
  }

  /** Following `relation` from `owner` leads to `target`. */
  ghost predicate Leads(s: Schema, owner: string, relation: string, target: string) {
    exists m | m in s.models :: m.name == owner && Target(s, m.fields, relation) == Some(target)
  }

  /** The type of a relation field is no scalar but the name of a control-plane model. */
  ghost predicate RelatesTo(s: Schema, f: Field, relation: string, target: string) {
    && f.name == relation && f.baseType == target
    && target !in {"String", "Boolean", "Int", "BigInt", "Float", "Decimal", "DateTime", "Json", "Bytes"}
    && exists m :: m in s.models && m.name == target
  }

  lemma RelatesToIs(s: Schema, f: Field)
    ensures RelatesTo(s, f, f.name, f.baseType) <==> IsRelation(s, f)
  {
  }

  /** A relation crosses when exactly one of its two models is in the run graph. */
  lemma CrossesIff(s: Schema, owner: string, relation: string)
    ensures Crosses(s, owner, relation) <==>
      exists m, f | m in s.models && f in m.fields ::
        m.name == owner && RelatesTo(s, f, relation, f.baseType)
        && ((owner in s.runGraph && f.baseType !in s.runGraph) || (owner !in s.runGraph && f.baseType in s.runGraph))
  {
    forall m, f | m in s.models && f in m.fields { RelatesToIs(s, f); }
  }

  /** Of several relation fields of one name the last one is followed. */
  lemma {:induction false} TargetIff(s: Schema, fields: seq<Field>, relation: string, target: string)
    ensures Target(s, fields, relation) == Some(target) <==>
      exists i :: 0 <= i < |fields| && LastRelation(s, fields, relation, target, i)
  {
    if fields != [] {
      var n := |fields| - 1;
      var init, last := fields[..n], fields[n];
      RelatesToIs(s, last);
      if IsRelation(s, last) && last.name == relation {
        if last.baseType == target { assert LastRelation(s, fields, relation, target, n); }
      } else {
        TargetIff(s, init, relation, target);
        forall i | 0 <= i < n ensures LastRelation(s, init, relation, target, i) <==> LastRelation(s, fields, relation, target, i) {
          assert forall j | 0 <= j < n :: init[j] == fields[j];
        }
      }
    }
  }

  ghost predicate LastRelation(s: Schema, fields: seq<Field>, relation: string, target: string, i: nat)
    requires i < |fields|
  {
    && RelatesTo(s, fields[i], relation, target)
    && forall j | i < j < |fields| :: !RelatesTo(s, fields[j], relation, fields[j].baseType)
  }

  datatype Tables = Tables(relations: map<string, map<string, string>>, crossing: map<string, set<string>>)

  predicate CrossesIn(t: Tables, owner: string, relation: string) {
    owner in t.crossing && relation in t.crossing[owner]
  }

  function TargetIn(t: Tables, owner: string, relation: string): Option<string> {
    if owner in t.relations && relation in t.relations[owner] then Some(t.relations[owner][relation]) else None
  }

  /** The tables say what the schema says. */
  ghost predicate Describes(t: Tables, s: Schema) {
    && (forall owner, relation :: CrossesIn(t, owner, relation) <==> Crosses(s, owner, relation))
    && (forall owner, relation, target :: TargetIn(t, owner, relation) == Some(target) <==> Leads(s, owner, relation, target))
  }

  function Lookup(rels: map<string, string>, relation: string): Option<string> {
    if relation in rels then Some(rels[relation]) else None
  }

  /** The rows of one model. */
  method ModelTable(s: Schema, m: Model) returns (rels: map<string, string>, crosses: set<string>)
    ensures forall relation :: relation in crosses <==>
      exists f | f in m.fields :: f.name == relation && IsRelation(s, f) && OppositeSides(s, m.name, f)
    ensures forall relation :: Lookup(rels, relation) == Target(s, m.fields, relation)
  {
    rels, crosses := map[], {};
    var i := 0;
    while i < |m.fields|
      invariant 0 <= i <= |m.fields|
      invariant forall relation :: relation in crosses <==>
        exists f | f in m.fields[..i] :: f.name == relation && IsRelation(s, f) && OppositeSides(s, m.name, f)
      invariant forall relation :: Lookup(rels, relation) == Target(s, m.fields[..i], relation)
    {
      var f := m.fields[i];
      assert m.fields[..i + 1] == m.fields[..i] + [f];
      assert m.fields[..i + 1][..i] == m.fields[..i];
      if IsRelation(s, f) {
        rels := rels[f.name := f.baseType];
        if OppositeSides(s, m.name, f) {
          crosses := crosses + {f.name};
        }
      }
      i := i + 1;
    }
    assert m.fields[..i] == m.fields;
  }

  /** The tables of the models read so far. */
  ghost predicate DescribesUpTo(t: Tables, s: Schema, n: nat)
    requires n <= |s.models|
  {
    && t.relations.Keys == Names(s.models[..n])
    && t.crossing.Keys <= Names(s.models[..n])
    && forall i | 0 <= i < n :: Row(t, s, s.models[i])
  }

  ghost predicate Row(t: Tables, s: Schema, m: Model) {
    && (forall relation :: TargetIn(t, m.name, relation) == Target(s, m.fields, relation))
    && (forall relation :: CrossesIn(t, m.name, relation) <==>
      exists f | f in m.fields :: f.name == relation && IsRelation(s, f) && OppositeSides(s, m.name, f))
  }

  /** A model without a crossing relation gets no row in the second table. */
  function WithRow(t: Tables, owner: string, rels: map<string, string>, crosses: set<string>): Tables {
    Tables(t.relations[owner := rels], if crosses == {} then t.crossing else t.crossing[owner := crosses])
  }

  lemma NewRow(t: Tables, s: Schema, m: Model, rels: map<string, string>, crosses: set<string>)
    requires m.name !in t.crossing
    requires forall relation :: relation in crosses <==>
      exists f | f in m.fields :: f.name == relation && IsRelation(s, f) && OppositeSides(s, m.name, f)
    requires forall relation :: Lookup(rels, relation) == Target(s, m.fields, relation)
    ensures Row(WithRow(t, m.name, rels, crosses), s, m)
  {
    var u := WithRow(t, m.name, rels, crosses);
    forall relation ensures TargetIn(u, m.name, relation) == Target(s, m.fields, relation) {
      assert TargetIn(u, m.name, relation) == Lookup(rels, relation);
    }
    assert forall relation :: CrossesIn(u, m.name, relation) <==> relation in crosses;
  }

  lemma OldRow(t: Tables, s: Schema, m: Model, owner: string, rels: map<string, string>, crosses: set<string>)
    requires Row(t, s, m) && m.name != owner
    ensures Row(WithRow(t, owner, rels, crosses), s, m)
  {
    RowKept(t, WithRow(t, owner, rels, crosses), s, m);
  }

  lemma NextRow(t: Tables, s: Schema, i: nat, rels: map<string, string>, crosses: set<string>)
    requires UniqueNames(s.models) && i < |s.models| && DescribesUpTo(t, s, i)
    requires forall relation :: relation in crosses <==>
      exists f | f in s.models[i].fields :: f.name == relation && IsRelation(s, f) && OppositeSides(s, s.models[i].name, f)
    requires forall relation :: Lookup(rels, relation) == Target(s, s.models[i].fields, relation)
    ensures DescribesUpTo(WithRow(t, s.models[i].name, rels, crosses), s, i + 1)
  {
    var m := s.models[i];
    assert m.name !in Names(s.models[..i]);
    assert s.models[..i + 1] == s.models[..i] + [m];
    NewRow(t, s, m, rels, crosses);
    forall j | 0 <= j < i ensures Row(WithRow(t, m.name, rels, crosses), s, s.models[j]) {
      OldRow(t, s, s.models[j], m.name, rels, crosses);
    }
  }

  /** The module-level tables the guard derives from the schema text. */
  method BuildTables(s: Schema) returns (t: Tables)
    requires UniqueNames(s.models)
    ensures Describes(t, s)
  {
    t := Tables(map[], map[]);
    var i := 0;
    while i < |s.models|
      invariant 0 <= i <= |s.models|
      invariant DescribesUpTo(t, s, i)
    {
      var m := s.models[i];
      var rels, crosses := ModelTable(s, m);
      NextRow(t, s, i, rels, crosses);
      t := WithRow(t, m.name, rels, crosses);
      i := i + 1;
    }
    assert s.models[..i] == s.models;
    UpToIsAll(t, s);
  }

  lemma RowKept(t: Tables, u: Tables, s: Schema, m: Model)
    requires Row(t, s, m)
    requires forall relation :: TargetIn(u, m.name, relation) == TargetIn(t, m.name, relation)
    requires forall relation :: CrossesIn(u, m.name, relation) == CrossesIn(t, m.name, relation)
    ensures Row(u, s, m)
  {
  }

  lemma UpToIsAll(t: Tables, s: Schema)
    requires UniqueNames(s.models) && DescribesUpTo(t, s, |s.models|)
    ensures Describes(t, s)
  {
    assert s.models[..|s.models|] == s.models;
    forall owner, relation ensures CrossesIn(t, owner, relation) <==> Crosses(s, owner, relation) {
      if owner in Names(s.models) {
        var i :| 0 <= i < |s.models| && s.models[i].name == owner;
        assert Row(t, s, s.models[i]);
        assert forall m | m in s.models && m.name == owner :: m == s.models[i];
      }
    }
    forall owner, relation, target ensures TargetIn(t, owner, relation) == Some(target) <==> Leads(s, owner, relation, target) {
      if owner in Names(s.models) {
        var i :| 0 <= i < |s.models| && s.models[i].name == owner;
        assert Row(t, s, s.models[i]);
        assert forall m | m in s.models && m.name == owner :: m == s.models[i];
      }
    }
  }

  // ---------------------------------------------------------------- selections

  /**
   * An argument expression, its aliases resolved as ToObjectLiteral resolves them. `Wrapped` is a
   * parenthesized, `as` or `satisfies` expression, `Alias` an identifier with the initializer its
   * variable declaration has; aliases that lead back to themselves are `OtherExpr`.
   */
  datatype Expr = Object(props: seq<Prop>) | Wrapped(inner: Expr) | Alias(initializer: Expr) | OtherExpr

  /** A property with the node its key stands at; a key that is no plain name is None. */
  datatype Prop =
    | Assignment(name: Option<string>, node: nat, value: Expr)
    | Shorthand(name: Option<string>, node: nat)
    | OtherProp(node: nat)

  datatype Hit = Hit(node: nat, owner: string, relation: string)

  function Key(p: Prop): Option<string> { if p.OtherProp? then None else p.name }

  /** toObjectLiteral: the object literal an expression stands for. */
  function ObjectOf(e: Expr): (o: Option<Expr>)
    ensures o.Some? ==> o.value.Object? && (o.value == e || o.value < e)
  {
    match e
    case Object(_) => Some(e)
    case Wrapped(inner) => ObjectOf(inner)
    case Alias(initializer) => ObjectOf(initializer)
    case OtherExpr => None
  }

  /** The object literal a property is assigned. */
  function Nested(p: Prop): (o: Option<Expr>)
    ensures o.Some? ==> o.value.Object? && o.value < p
  {
    if p.Assignment? then ObjectOf(p.value) else None
  }

  predicate Selects(p: Prop) { Key(p) == Some("select") || Key(p) == Some("include") }

  /** The hit at a property of a selection on `model` itself. */
  function OwnHit(t: Tables, p: Prop, model: string): seq<Hit> {
    if Key(p).Some? && Key(p).value != "" && CrossesIn(t, model, Key(p).value) then [Hit(p.node, model, Key(p).value)] else []
  }

  function RelationTarget(t: Tables, p: Prop, model: string): Option<string> {
    if Key(p).None? || Key(p).value == "" then None else TargetIn(t, model, Key(p).value)
  }

  /** The hits at and under one property of a selection on `model`. */
  function SelectionProp(t: Tables, p: Prop, model: string): seq<Hit>
    decreases p
  {
    var target, nested := RelationTarget(t, p, model), Nested(p);
    OwnHit(t, p, model) + if target.Some? && nested.Some? then ArgHits(t, nested.value, target.value, |nested.value.props|) else []
  }

  /** The hits of the first `n` properties of a selection on `model`, in source order. */
  function SelectionHits(t: Tables, o: Expr, model: string, n: nat): seq<Hit>
    requires o.Object? && n <= |o.props|
    decreases o, n
  {
    if n == 0 then [] else SelectionHits(t, o, model, n - 1) + SelectionProp(t, o.props[n - 1], model)
  }

  /** The hits under one property of query arguments on `model`. */
  function ArgProp(t: Tables, p: Prop, model: string): seq<Hit>
    decreases p
  {
    var nested := Nested(p);
    if Selects(p) && nested.Some? then SelectionHits(t, nested.value, model, |nested.value.props|) else []
  }

  /** The hits under the first `n` properties of query arguments on `model`. */
  function ArgHits(t: Tables, o: Expr, model: string, n: nat): seq<Hit>
    requires o.Object? && n <= |o.props|
    decreases o, n
  {
    if n == 0 then [] else ArgHits(t, o, model, n - 1) + ArgProp(t, o.props[n - 1], model)
  }

  // ---------------------------------------------------------------- what a hit is

  /**
   * `trail` picks a property of a selection on `model`, then a select or include under it, then a
   * property of that selection, and so on; the last one is the crossing relation `h` reports.
   */
  predicate SelectionTrail(t: Tables, o: Expr, model: string, trail: seq<nat>, h: Hit)
    requires o.Object?
    decreases |trail|
  {
    trail != [] && trail[0] < |o.props| &&
    var p := o.props[trail[0]];
    if |trail| == 1 then
      Key(p).Some? && Key(p).value != "" && CrossesIn(t, model, Key(p).value) && h == Hit(p.node, model, Key(p).value)
    else
      var target, nested := RelationTarget(t, p, model), Nested(p);
      target.Some? && nested.Some? && ArgTrail(t, nested.value, target.value, trail[1..], h)
  }

  /** The same from query arguments: the first pick is a select or include. */
  predicate ArgTrail(t: Tables, o: Expr, model: string, trail: seq<nat>, h: Hit)
    requires o.Object?
    decreases |trail|
  {
    trail != [] && trail[0] < |o.props| &&
    var p := o.props[trail[0]];
    && p.Assignment? && (p.name == Some("select") || p.name == Some("include"))
    && Nested(p).Some? && SelectionTrail(t, Nested(p).value, model, trail[1..], h)
  }

  lemma {:induction false} SelectionIncludes(t: Tables, o: Expr, model: string, n: nat, i: nat, h: Hit)
    requires o.Object? && i < n <= |o.props| && h in SelectionProp(t, o.props[i], model)
    ensures h in SelectionHits(t, o, model, n)
  {
    if i < n - 1 {
      SelectionIncludes(t, o, model, n - 1, i, h);
    }
  }

  lemma {:induction false} SelectionPlace(t: Tables, o: Expr, model: string, n: nat, h: Hit) returns (i: nat)
    requires o.Object? && n <= |o.props| && h in SelectionHits(t, o, model, n)
    ensures i < n && h in SelectionProp(t, o.props[i], model)
  {
    if h in SelectionProp(t, o.props[n - 1], model) {
      i := n - 1;
    } else {
      i := SelectionPlace(t, o, model, n - 1, h);
    }
  }

  lemma {:induction false} ArgIncludes(t: Tables, o: Expr, model: string, n: nat, i: nat, h: Hit)
    requires o.Object? && i < n <= |o.props| && h in ArgProp(t, o.props[i], model)
    ensures h in ArgHits(t, o, model, n)
  {
    if i < n - 1 {
      ArgIncludes(t, o, model, n - 1, i, h);
    }
  }

  lemma {:induction false} ArgPlace(t: Tables, o: Expr, model: string, n: nat, h: Hit) returns (i: nat)
    requires o.Object? && n <= |o.props| && h in ArgHits(t, o, model, n)
    ensures i < n && h in ArgProp(t, o.props[i], model)
  {
    if h in ArgProp(t, o.props[n - 1], model) {
      i := n - 1;
    } else {
      i := ArgPlace(t, o, model, n - 1, h);
    }
  }

  ghost predicate SomeSelectionTrail(t: Tables, o: Expr, model: string, h: Hit)
    requires o.Object?
  {
    exists trail :: SelectionTrail(t, o, model, trail, h)
  }

  ghost predicate SomeArgTrail(t: Tables, o: Expr, model: string, h: Hit)
    requires o.Object?
  {
    exists trail :: ArgTrail(t, o, model, trail, h)
  }

  lemma {:induction false} SelectionHitHasTrail(t: Tables, o: Expr, model: string, h: Hit)
    requires o.Object? && h in SelectionHits(t, o, model, |o.props|)
    ensures SomeSelectionTrail(t, o, model, h)
    decreases o
  {
    var i := SelectionPlace(t, o, model, |o.props|, h);
    var p := o.props[i];
    if h in OwnHit(t, p, model) {
      assert SelectionTrail(t, o, model, [i], h);
    } else {
      var nested, target := Nested(p).value, RelationTarget(t, p, model).value;
      ArgHitHasTrail(t, nested, target, h);
      var rest :| ArgTrail(t, nested, target, rest, h);
      assert ([i] + rest)[1..] == rest;
      assert SelectionTrail(t, o, model, [i] + rest, h);
    }
  }

  lemma {:induction false} ArgHitHasTrail(t: Tables, o: Expr, model: string, h: Hit)
    requires o.Object? && h in ArgHits(t, o, model, |o.props|)
    ensures SomeArgTrail(t, o, model, h)
    decreases o
  {
    var i := ArgPlace(t, o, model, |o.props|, h);
    var nested := Nested(o.props[i]).value;
    SelectionHitHasTrail(t, nested, model, h);
    var rest :| SelectionTrail(t, nested, model, rest, h);
    assert ([i] + rest)[1..] == rest;
    assert ArgTrail(t, o, model, [i] + rest, h);
  }

  lemma {:induction false} SelectionTrailIsHit(t: Tables, o: Expr, model: string, trail: seq<nat>, h: Hit)
    requires o.Object? && SelectionTrail(t, o, model, trail, h)
    ensures h in SelectionHits(t, o, model, |o.props|)
    decreases |trail|
  {
    var p := o.props[trail[0]];
    if |trail| > 1 {
      ArgTrailIsHit(t, Nested(p).value, RelationTarget(t, p, model).value, trail[1..], h);
    }
    assert h in SelectionProp(t, p, model);
    SelectionIncludes(t, o, model, |o.props|, trail[0], h);
  }

  lemma {:induction false} ArgTrailIsHit(t: Tables, o: Expr, model: string, trail: seq<nat>, h: Hit)
    requires o.Object? && ArgTrail(t, o, model, trail, h)
    ensures h in ArgHits(t, o, model, |o.props|)
    decreases |trail|
  {
    SelectionTrailIsHit(t, Nested(o.props[trail[0]]).value, model, trail[1..], h);
    assert h in ArgProp(t, o.props[trail[0]], model);
    ArgIncludes(t, o, model, |o.props|, trail[0], h);
  }

  /** The walk reports exactly the crossing relations some nesting of selections leads to. */
  lemma HitsAreTrails(t: Tables, o: Expr, model: string, h: Hit)
    requires o.Object?
    ensures h in ArgHits(t, o, model, |o.props|) <==> SomeArgTrail(t, o, model, h)
  {
    if h in ArgHits(t, o, model, |o.props|) {
      ArgHitHasTrail(t, o, model, h);
    }
    if trail :| ArgTrail(t, o, model, trail, h) {
      ArgTrailIsHit(t, o, model, trail, h);
    }
  }

  /** The relation a trail ends at has its owner and its target on opposite sides. */
  lemma {:induction false} TrailEndsAtSeam(t: Tables, s: Schema, o: Expr, model: string, trail: seq<nat>, h: Hit)
    requires Describes(t, s) && o.Object? && ArgTrail(t, o, model, trail, h)
    ensures Crosses(s, h.owner, h.relation)
    decreases |trail|
  {
    var sel, rest := Nested(o.props[trail[0]]).value, trail[1..];
    if |rest| > 1 {
      var p := sel.props[rest[0]];
      TrailEndsAtSeam(t, s, Nested(p).value, RelationTarget(t, p, model).value, rest[1..], h);
    }
  }

  // ---------------------------------------------------------------- hits by the schema

  /** `o` is the object literal under the wrappers and aliases of `e`. */
  predicate StandsFor(e: Expr, o: Expr) {
    match e
    case Object(_) => e == o
    case Wrapped(inner) => StandsFor(inner, o)
    case Alias(initializer) => StandsFor(initializer, o)
    case OtherExpr => false
  }

  lemma {:induction false} ObjectStandsFor(e: Expr, o: Expr)
    ensures ObjectOf(e) == Some(o) <==> StandsFor(e, o)
  {
    match e
    case Wrapped(inner) => ObjectStandsFor(inner, o);
    case Alias(initializer) => ObjectStandsFor(initializer, o);
    case _ =>
  }

  /** Property `name` of an object literal is assigned the object literal `o`. */
  predicate Assigns(p: Prop, name: string, o: Expr) { p.Assignment? && p.name == Some(name) && StandsFor(p.value, o) }

  /** The property is called `name`, assigned or in shorthand. */
  predicate Called(p: Prop, name: string) { !p.OtherProp? && p.name == Some(name) }

  /** SelectionTrail read off the schema and the text instead of the tables. */
  ghost predicate SchemaSelectionTrail(s: Schema, o: Expr, model: string, trail: seq<nat>, h: Hit)
    requires o.Object?
    decreases |trail|
  {
    trail != [] && trail[0] < |o.props| &&
    if |trail| == 1 then
      h.node == o.props[trail[0]].node && h.owner == model && h.relation != ""
      && Called(o.props[trail[0]], h.relation) && Crosses(s, model, h.relation)
    else
      exists relation, target, args :: Under(s, o.props[trail[0]], model, relation, target, args)
                                       && SchemaArgTrail(s, args, target, trail[1..], h)
  }

  /** The property assigns query arguments to a relation that leads on to `target`. */
  ghost predicate Under(s: Schema, p: Prop, model: string, relation: string, target: string, args: Expr) {
    relation != "" && args.Object? && Assigns(p, relation, args) && Leads(s, model, relation, target)
  }

  /** ArgTrail read off the schema and the text. */
  ghost predicate SchemaArgTrail(s: Schema, o: Expr, model: string, trail: seq<nat>, h: Hit)
    requires o.Object?
    decreases |trail|
  {
    trail != [] && trail[0] < |o.props| &&
    exists selection :: Selection(o.props[trail[0]], selection) && SchemaSelectionTrail(s, selection, model, trail[1..], h)
  }

  /** The property is a select or an include with this selection. */
  predicate Selection(p: Prop, selection: Expr) {
    selection.Object? && (Assigns(p, "select", selection) || Assigns(p, "include", selection))
  }

  lemma SelectionIs(p: Prop, selection: Expr)
    ensures Selection(p, selection) <==> Selects(p) && Nested(p) == Some(selection)
  {
    if p.Assignment? { ObjectStandsFor(p.value, selection); }
  }

  lemma UnderIs(t: Tables, s: Schema, p: Prop, model: string, relation: string, target: string, args: Expr)
    requires Describes(t, s)
    ensures Under(s, p, model, relation, target, args) <==>
      Nested(p) == Some(args) && Key(p) == Some(relation) && RelationTarget(t, p, model) == Some(target)
  {
    if p.Assignment? { ObjectStandsFor(p.value, args); }
    assert TargetIn(t, model, relation) == Some(target) <==> Leads(s, model, relation, target);
  }

  lemma {:induction false} SelectionTrailBySchema(t: Tables, s: Schema, o: Expr, model: string, trail: seq<nat>, h: Hit)
    requires Describes(t, s) && o.Object?
    ensures SelectionTrail(t, o, model, trail, h) <==> SchemaSelectionTrail(s, o, model, trail, h)
    decreases |trail|
  {
    if trail != [] && trail[0] < |o.props| {
      var p := o.props[trail[0]];
      if |trail| == 1 {
        assert CrossesIn(t, model, h.relation) <==> Crosses(s, model, h.relation);
      } else {
        if SelectionTrail(t, o, model, trail, h) {
          UnderIs(t, s, p, model, Key(p).value, RelationTarget(t, p, model).value, Nested(p).value);
          ArgTrailBySchema(t, s, Nested(p).value, RelationTarget(t, p, model).value, trail[1..], h);
        }
        if relation, target, args :| Under(s, p, model, relation, target, args) && SchemaArgTrail(s, args, target, trail[1..], h) {
          UnderIs(t, s, p, model, relation, target, args);
          ArgTrailBySchema(t, s, args, target, trail[1..], h);
        }
      }
    }
  }

  lemma {:induction false} ArgTrailBySchema(t: Tables, s: Schema, o: Expr, model: string, trail: seq<nat>, h: Hit)
    requires Describes(t, s) && o.Object?
    ensures ArgTrail(t, o, model, trail, h) <==> SchemaArgTrail(s, o, model, trail, h)
    decreases |trail|
  {
    if trail != [] && trail[0] < |o.props| {
      var p := o.props[trail[0]];
      if Nested(p).Some? {
        SelectionIs(p, Nested(p).value);
        SelectionTrailBySchema(t, s, Nested(p).value, model, trail[1..], h);
      }
      if selection :| Selection(p, selection) && SchemaSelectionTrail(s, selection, model, trail[1..], h) {
        SelectionIs(p, selection);
      }
    }
  }

  /**
   * With the tables of a schema, a hit is reported exactly when some nesting of selections follows
   * relations of the schema to one that crosses the seam.
   */
  lemma HitsBySchema(t: Tables, s: Schema, o: Expr, model: string, h: Hit)
    requires Describes(t, s) && o.Object?
    ensures h in ArgHits(t, o, model, |o.props|) <==> exists trail :: SchemaArgTrail(s, o, model, trail, h)
  {
    HitsAreTrails(t, o, model, h);
    if trail :| ArgTrail(t, o, model, trail, h) {
      ArgTrailBySchema(t, s, o, model, trail, h);
    }
    if trail :| SchemaArgTrail(s, o, model, trail, h) {
      ArgTrailBySchema(t, s, o, model, trail, h);
    }
  }

  /** A crossing relation in an include or a select is reported, as is whatever is reported further down. */
  lemma SelectedCrossingIsHit(t: Tables, s: Schema, o: Expr, model: string, i: nat, selection: Expr, j: nat)
    requires Describes(t, s) && o.Object? && i < |o.props| && Selection(o.props[i], selection) && j < |selection.props|
    ensures var q := selection.props[j]; var hits := ArgHits(t, o, model, |o.props|);
      && (forall relation | relation != "" && Called(q, relation) && Crosses(s, model, relation) ::
            Hit(q.node, model, relation) in hits)
      && (forall relation, target, args | Under(s, q, model, relation, target, args) ::
            forall h | h in ArgHits(t, args, target, |args.props|) :: h in hits)
  {
    var q, p := selection.props[j], o.props[i];
    SelectionIs(p, selection);
    forall h | h in SelectionProp(t, q, model) ensures h in ArgHits(t, o, model, |o.props|) {
      SelectionIncludes(t, selection, model, |selection.props|, j, h);
      ArgIncludes(t, o, model, |o.props|, i, h);
    }
    forall relation | relation != "" && Called(q, relation) && Crosses(s, model, relation)
      ensures Hit(q.node, model, relation) in ArgHits(t, o, model, |o.props|)
    {
      assert CrossesIn(t, model, relation);
      assert Hit(q.node, model, relation) in OwnHit(t, q, model);
    }
    forall relation, target, args | Under(s, q, model, relation, target, args)
      ensures forall h | h in ArgHits(t, args, target, |args.props|) :: h in ArgHits(t, o, model, |o.props|)
    {
      UnderIs(t, s, q, model, relation, target, args);
    }
  }

  /** No property but an include or a select that is assigned an object literal adds a hit. */
  lemma {:induction false} OthersAddNothing(t: Tables, o: Expr, model: string, n: nat)
    requires o.Object? && n <= |o.props|
    requires forall i, selection | 0 <= i < n :: !Selection(o.props[i], selection)
    ensures ArgHits(t, o, model, n) == []
  {
    if n > 0 {
      var p := o.props[n - 1];
      if Nested(p).Some? { SelectionIs(p, Nested(p).value); }
      OthersAddNothing(t, o, model, n - 1);
    }
  }

  const PROJECTS := Schema(
    [Model("Project", [Field("name", "String"), Field("organization", "Organization"), Field("taskRuns", "TaskRun")]),
     Model("Organization", []), Model("TaskRun", [Field("project", "Project")])],
    {"TaskRun"})

  lemma ProjectSeam()
    ensures Crosses(PROJECTS, "Project", "taskRuns") && !Crosses(PROJECTS, "Project", "organization")
  {
    var m, f := PROJECTS.models[0], Field("taskRuns", "TaskRun");
    assert m.fields[2] == f && PROJECTS.models[2].name == "TaskRun";
    assert |"TaskRun"| == 7 && forall k | k in PRISMA_SCALARS && |k| == 7 :: k[0] != 'T';
    assert IsRelation(PROJECTS, f) && OppositeSides(PROJECTS, "Project", f);
    assert forall m | m in PROJECTS.models && m.name == "Project" :: m == PROJECTS.models[0];
  }

  /**
   * prisma.project.findFirst({ where: ..., include: { organization: true, taskRuns: true } }) has
   * one hit: the runs are on the other side of the seam, the organization is not.
   */
  lemma IncludedRunsAreReported(t: Tables, filter: Expr, flag: Expr)
    requires Describes(t, PROJECTS) && ObjectOf(flag) == None
    ensures var runs := Object([Assignment(Some("organization"), 3, flag), Assignment(Some("taskRuns"), 4, flag)]);
      ArgHits(t, Object([Assignment(Some("where"), 1, filter), Assignment(Some("include"), 2, runs)]), "Project", 2)
      == [Hit(4, "Project", "taskRuns")]
  {
    var runs := Object([Assignment(Some("organization"), 3, flag), Assignment(Some("taskRuns"), 4, flag)]);
    var o := Object([Assignment(Some("where"), 1, filter), Assignment(Some("include"), 2, runs)]);
    ProjectSeam();
    assert CrossesIn(t, "Project", "taskRuns") && !CrossesIn(t, "Project", "organization");
    assert ArgHits(t, o, "Project", 0) == [] && ArgProp(t, o.props[0], "Project") == [];
    assert ArgHits(t, o, "Project", 1) == [];
    assert SelectionHits(t, runs, "Project", 0) == [] && SelectionProp(t, runs.props[0], "Project") == [];
    assert SelectionHits(t, runs, "Project", 1) == [];
    assert SelectionProp(t, runs.props[1], "Project") == [Hit(4, "Project", "taskRuns")];
    assert ArgProp(t, o.props[1], "Project") == [Hit(4, "Project", "taskRuns")];
  }

  // ---------------------------------------------------------------- the walk

  lemma Regroup<T>(a: seq<T>, b: seq<T>, c: seq<T>)
    ensures a + b + c == a + (b + c)
  {
  }

  /** The list every call of one walk pushes onto. */
  class HitList {
    const tables: Tables
    var hits: seq<Hit>

    constructor (t: Tables)
      ensures tables == t && hits == []
    {
      tables := t;
      hits := [];
    }

    method WalkSelectionMap(o: Expr, model: string)
      requires o.Object?
      modifies this`hits
      ensures hits == old(hits) + SelectionHits(tables, o, model, |o.props|)
      decreases o
    {
      var i := 0;
      while i < |o.props|
        invariant 0 <= i <= |o.props|
        invariant hits == old(hits) + SelectionHits(tables, o, model, i)
      {
        ghost var done := SelectionHits(tables, o, model, i);
        VisitSelected(o.props[i], model);
        Regroup(old(hits), done, SelectionProp(tables, o.props[i], model));
        i := i + 1;
      }
    }

    method VisitSelected(p: Prop, model: string)
      modifies this`hits
      ensures hits == old(hits) + SelectionProp(tables, p, model)
      decreases p
    {
      if Key(p).None? || Key(p).value == "" {
        return;
      }
      if CrossesIn(tables, model, Key(p).value) {
        hits := hits + [Hit(p.node, model, Key(p).value)];
      }
      assert hits == old(hits) + OwnHit(tables, p, model);
      var target := TargetIn(tables, model, Key(p).value);
      if target.Some? && p.Assignment? {
        var nested := ObjectOf(p.value);
        if nested.Some? {
          WalkRelationArgs(nested.value, target.value);
          Regroup(old(hits), OwnHit(tables, p, model), ArgHits(tables, nested.value, target.value, |nested.value.props|));
        }
      }
    }

    method WalkRelationArgs(o: Expr, model: string)
      requires o.Object?
      modifies this`hits
      ensures hits == old(hits) + ArgHits(tables, o, model, |o.props|)
      decreases o
    {
      var i := 0;
      while i < |o.props|
        invariant 0 <= i <= |o.props|
        invariant hits == old(hits) + ArgHits(tables, o, model, i)
      {
        var p := o.props[i];
        ghost var before, done := hits, ArgHits(tables, o, model, i);
        if Selects(p) && p.Assignment? {
          var nested := ObjectOf(p.value);
          if nested.Some? {
            WalkSelectionMap(nested.value, model);
          }
        }
        assert hits == before + ArgProp(tables, p, model);
        Regroup(old(hits), done, ArgProp(tables, p, model));
        i := i + 1;
      }
    }
  }

  /** The walk of a call's first argument; no argument or no object literal has no hits. */
  method CollectCrossSeamHits(t: Tables, arg: Option<Expr>, rootModel: string) returns (hits: seq<Hit>)
    ensures forall h :: h in hits <==> arg.Some? && ObjectOf(arg.value).Some? && SomeArgTrail(t, ObjectOf(arg.value).value, rootModel, h)
    ensures arg.Some? && ObjectOf(arg.value).Some? ==>
      hits == ArgHits(t, ObjectOf(arg.value).value, rootModel, |ObjectOf(arg.value).value.props|)
  {
    if arg.None? || ObjectOf(arg.value).None? {
      return [];
    }
    var o := ObjectOf(arg.value).value;
    var list := new HitList(t);
    list.WalkRelationArgs(o, rootModel);
    hits := list.hits;
    forall h { HitsAreTrails(t, o, rootModel, h); }
  }

  // ---------------------------------------------------------------- resolving an object literal

  /** A node as toObjectLiteral sees it: a literal, a wrapper or alias of another node, or neither. */
  datatype Link = Literal | To(next: nat) | NoObject

  type Links = links: seq<Link> | forall i | 0 <= i < |links| && links[i].To? :: links[i].next < |links| witness []

  /** The node `k` links on. */
  function Followed(links: Links, node: nat, k: nat): (r: Option<nat>)
    requires node < |links|
    ensures r.Some? ==> r.value < |links|
    decreases k
  {
    if k == 0 then Some(node)
    else if links[node].To? then Followed(links, links[node].next, k - 1)
    else None
  }

  ghost predicate Resolves(links: Links, node: nat, literal: nat)
    requires node < |links|
  {
    exists k: nat :: Followed(links, node, k) == Some(literal) && literal < |links| && links[literal].Literal?
  }

  lemma ResolvesOn(links: Links, node: nat, literal: nat)
    requires node < |links|
    ensures Resolves(links, node, literal) <==>
      if links[node].To? then Resolves(links, links[node].next, literal) else node == literal && links[node].Literal?
  {
    assert Followed(links, node, 0) == Some(node);
    if k: nat :| Followed(links, node, k) == Some(literal) && literal < |links| && links[literal].Literal? {
      if k > 0 { assert Followed(links, links[node].next, k - 1) == Some(literal); }
    }
    if links[node].To? && Resolves(links, links[node].next, literal) {
      var k: nat :| Followed(links, links[node].next, k) == Some(literal) && links[literal].Literal?;
      assert Followed(links, node, k + 1) == Some(literal);
    }
  }

  /** No literal here, and every link leads here or to `next`. */
  ghost predicate Visited(links: Links, seen: set<nat>, next: nat) {
    forall n | n in seen :: n < |links| && links[n].To? && links[n].next in seen + {next}
  }

  lemma {:induction false} CycleHasNoLiteral(links: Links, seen: set<nat>, node: nat, k: nat)
    requires node in seen && Visited(links, seen, node)
    requires Followed(links, node, k).Some?
    ensures !links[Followed(links, node, k).value].Literal?
    decreases k
  {
    if k > 0 {
      assert seen + {node} == seen;
      CycleHasNoLiteral(links, seen, links[node].next, k - 1);
    }
  }

  /** One resolution, with the visited set its recursive calls share. */
  class Resolver {
    const links: Links
    var seen: set<nat>

    constructor (l: Links)
      ensures links == l && seen == {}
    {
      links := l;
      seen := {};
    }

    method ToObjectLiteral(node: nat) returns (literal: Option<nat>)
      requires node < |links| && Visited(links, seen, node)
      modifies this`seen
      ensures literal.Some? ==> Resolves(links, node, literal.value)
      ensures literal.None? ==> forall o: nat :: !Resolves(links, node, o)
      decreases |links| - |seen|
    {
      if node in seen {
        forall o: nat ensures !Resolves(links, node, o) {
          if k: nat :| Followed(links, node, k) == Some(o) && o < |links| && links[o].Literal? {
            CycleHasNoLiteral(links, seen, node, k);
          }
        }
        return None;
      }
      SeenIsShort(node);
      seen := seen + {node};
      forall o: nat { ResolvesOn(links, node, o); }
      match links[node] {
        case Literal => literal := Some(node);
        case NoObject => literal := None;
        case To(next) => literal := ToObjectLiteral(next);
      }
    }

    lemma SeenIsShort(node: nat)
      requires node < |links| && node !in seen && Visited(links, seen, node)
      ensures |seen| < |links| && |seen + {node}| == |seen| + 1
    {
      SubsetIsSmaller(seen + {node}, AllIds(|links|));
    }
  }

  function AllIds(n: nat): (r: set<nat>)
    ensures |r| == n && forall i :: i in r <==> 0 <= i < n
  {
    if n == 0 then {} else AllIds(n - 1) + {n - 1}
  }

  lemma SubsetIsSmaller(a: set<nat>, b: set<nat>)
    requires a <= b
    ensures |a| <= |b|
  {
    assert b == a + (b - a);
  }
}
