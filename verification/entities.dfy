/** The values a template talks about and the environment that names them. */
module Entities {
  import opened Results

  /** A closed, tagged value: exactly one variant is active. */
  datatype Entity =
    | Text(text: string)
    | Number(number: int)
    | Object(fields: map<string, Entity>)
    | Sequence(items: seq<Entity>)

  /** The variables visible at one point of the template. */
  type Context = map<string, Entity>

  predicate SameVariant(a: Entity, b: Entity) {
    || (a.Text? && b.Text?)
    || (a.Number? && b.Number?)
    || (a.Object? && b.Object?)
    || (a.Sequence? && b.Sequence?)
  }

  /** `after` binds the same names as `before`, each to an entity of the
      same variant: what a render may do to the context it is given. */
  predicate Conforms(after: Context, before: Context) {
    && after.Keys == before.Keys
    && forall n :: n in before ==> SameVariant(after[n], before[n])
  }

  lemma ConformsTransitive(a: Context, b: Context, c: Context)
    requires Conforms(a, b) && Conforms(b, c)
    ensures Conforms(a, c)
  {
  }

  /** How a named entity was reached: a variable, or one field of an
      object-valued variable. */
  datatype Path = Var(name: string) | Field(name: string, field: string)

  /** The entity a path names: a binding, or a field of an object binding. */
  function Lookup(ctx: Context, path: Path): (r: Option<Entity>)
    ensures r.Some? <==> path.name in ctx && (path.Field? ==> ctx[path.name].Object? && path.field in ctx[path.name].fields)
    ensures r.Some? && path.Var? ==> r.value == ctx[path.name]
    ensures r.Some? && path.Field? ==> r.value == ctx[path.name].fields[path.field]
  {
    match path
    case Var(n) =>
      if n in ctx then Some(ctx[n]) else None
    case Field(n, f) =>
      if n in ctx && ctx[n].Object? && f in ctx[n].fields then Some(ctx[n].fields[f]) else None
  }

  /** Overwrite the entity a path names, leaving every other binding alone. */
  function Store(ctx: Context, path: Path, e: Entity): (r: Context)
    requires Lookup(ctx, path).Some?
    ensures Lookup(r, path) == Some(e)
    ensures r.Keys == ctx.Keys
    ensures forall n :: n in ctx && n != path.name ==> r[n] == ctx[n]
    ensures path.Field? ==> r[path.name].Object?
    ensures path.Field? ==> r[path.name].fields.Keys == ctx[path.name].fields.Keys
    ensures path.Field? ==> forall f :: f in ctx[path.name].fields && f != path.field ==>
                              r[path.name].fields[f] == ctx[path.name].fields[f]
  {
    match path
    case Var(n) => ctx[n := e]
    case Field(n, f) => ctx[n := Object(ctx[n].fields[f := e])]
  }
}
