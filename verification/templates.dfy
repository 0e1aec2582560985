/**
 * Field templates, validator argument resolution and validator binding.
 *
 * A registered field keeps its label, its field type, its own construction
 * arguments and an ordered list of validator factories. The positional and
 * keyword arguments of a validator are kept in a bag keyed by the factory's
 * name, so two registrations of the same factory share one bag: the one the
 * later call wrote.
 */
module Templates {
  import opened Placeholder
  import opened KeyClassifier

  /**
   * An argument value: a string, which placeholder resolution may rewrite,
   * or any other object (a number, a list, ...), which it never touches.
   */
  datatype Value = Str(s: string) | Opaque(id: int)

  /** A field class of the form framework, by identity. */
  datatype FieldType = FieldType(id: string)

  /** A validator factory of the form framework; `name` is its `__name__`. */
  datatype Validator = Validator(name: string, id: int)

  /** The arguments recorded for a validator name. */
  datatype ArgBag = ArgBag(args: seq<Value>, kwargs: map<string, Value>)

  datatype Template = Template(
    fieldLabel: string,
    fieldType: FieldType,
    args: seq<Value>,
    kwargs: map<string, Value>,
    validators: seq<Validator>,
    bags: map<string, ArgBag>)

  /** A validator built for one field occurrence: factory and resolved arguments. */
  datatype BoundValidator = Bound(factory: Validator, args: seq<Value>, kwargs: map<string, Value>)

  /** Every registered validator has its argument bag. */
  ghost predicate WellFormed(t: Template) {
    forall v :: v in t.validators ==> v.name in t.bags
  }

  ghost predicate AllWellFormed(fields: map<string, Template>) {
    forall name :: name in fields ==> WellFormed(fields[name])
  }

  /** A field as `add_field` records it: the given label, type and arguments, and no validators yet. */
  function NewTemplate(fieldLabel: string, fieldType: FieldType, args: seq<Value>, kwargs: map<string, Value>): (t: Template)
    ensures WellFormed(t) && t.validators == []
    ensures (t.fieldLabel, t.fieldType, t.args, t.kwargs) == (fieldLabel, fieldType, args, kwargs)
  {
    Template(fieldLabel, fieldType, args, kwargs, [], map[])
  }

  /**
   * The template after `add_validator`: the factory is appended and the bag
   * under its name is replaced by this call's arguments.
   */
  function WithValidator(t: Template, v: Validator, args: seq<Value>, kwargs: map<string, Value>): (t': Template)
    ensures WellFormed(t) ==> WellFormed(t')
    ensures t'.validators == t.validators + [v]
    ensures t'.bags.Keys == t.bags.Keys + {v.name}
    ensures (t'.fieldLabel, t'.fieldType, t'.args, t'.kwargs) == (t.fieldLabel, t.fieldType, t.args, t.kwargs)
  {
    t.(validators := t.validators + [v], bags := t.bags[v.name := ArgBag(args, kwargs)])
  }

  /**
   * One argument in a context: outside a set it passes through; inside set
   * `n` a string has its `%ident%` tokens rewritten and any other value
   * passes through.
   */
  function ResolveValue(v: Value, ctx: SetContext): (r: Value)
    ensures ctx.NoSet? || v.Opaque? ==> r == v
    ensures ctx.InSet? && v.Str? ==> r == Str(Fill(Parse(v.s), ctx.number))
  {
    match ctx
    case NoSet => v
    case InSet(n) =>
      if v.Str? then
        RewriteIsFill(v.s, n);
        Str(Rewrite(v.s, n))
      else v
  }

  function ResolveArgs(args: seq<Value>, ctx: SetContext): (r: seq<Value>)
    ensures |r| == |args|
    ensures forall i :: 0 <= i < |args| ==> r[i] == ResolveValue(args[i], ctx)
    ensures ctx.NoSet? ==> r == args
  {
    if args == [] then [] else [ResolveValue(args[0], ctx)] + ResolveArgs(args[1..], ctx)
  }

  /**
   * Keyword arguments resolved for one occurrence: the same keywords; the
   * stored dictionary itself outside a set; inside set `n`, strings filled
   * with `n` and anything else kept.
   */
  function ResolveKwargs(kwargs: map<string, Value>, ctx: SetContext): (r: map<string, Value>)
    ensures r.Keys == kwargs.Keys
    ensures ctx.NoSet? ==> r == kwargs
    ensures forall k :: k in kwargs && kwargs[k].Opaque? ==> r[k] == kwargs[k]
    ensures ctx.InSet? ==> forall k :: k in kwargs && kwargs[k].Str? ==> r[k] == Str(Fill(Parse(kwargs[k].s), ctx.number))
  {
    if ctx.NoSet? then kwargs else map k | k in kwargs :: ResolveValue(kwargs[k], ctx)
  }

  /** Each resolved keyword argument is its value resolved on its own. */
  lemma ResolveKwargsAt(kwargs: map<string, Value>, ctx: SetContext, k: string)
    requires k in kwargs
    ensures ResolveKwargs(kwargs, ctx)[k] == ResolveValue(kwargs[k], ctx)
  {
  }

  /**
   * The validator `v` of template `t`, bound with its bag's resolved
   * arguments; outside a set the bag is passed on as stored.
   */
  function Bind(t: Template, v: Validator, ctx: SetContext): (b: BoundValidator)
    requires v.name in t.bags
    ensures b.factory == v
    ensures |b.args| == |t.bags[v.name].args| && b.kwargs.Keys == t.bags[v.name].kwargs.Keys
    ensures ctx.NoSet? ==> b.args == t.bags[v.name].args && b.kwargs == t.bags[v.name].kwargs
    ensures forall i :: 0 <= i < |b.args| ==> b.args[i] == ResolveValue(t.bags[v.name].args[i], ctx)
    ensures forall k :: k in b.kwargs ==> b.kwargs[k] == ResolveValue(t.bags[v.name].kwargs[k], ctx)
  {
    var bag := t.bags[v.name];
    Bound(v, ResolveArgs(bag.args, ctx), ResolveKwargs(bag.kwargs, ctx))
  }

  /**
   * All validators of `t`, bound in registration order. Two registrations
   * under one factory name are bound with the same arguments.
   */
  function BindAll(t: Template, ctx: SetContext): (bs: seq<BoundValidator>)
    requires WellFormed(t)
    ensures |bs| == |t.validators|
    ensures forall i :: 0 <= i < |bs| ==> bs[i].factory == t.validators[i]
    ensures forall i, j ::
              0 <= i < |bs| && 0 <= j < |bs| && t.validators[i].name == t.validators[j].name ==>
              bs[i].args == bs[j].args && bs[i].kwargs == bs[j].kwargs
  {
    seq(|t.validators|, i requires 0 <= i < |t.validators| => Bind(t, t.validators[i], ctx))
  }

  /**
   * Resolution leaves an argument as declared exactly when there is no set,
   * the argument is not a string, or the string holds no placeholder token.
   */
  lemma ResolveValueUnchangedIff(v: Value, ctx: SetContext)
    ensures ResolveValue(v, ctx) == v
        <==> ctx.NoSet? || v.Opaque? || forall i :: !MatchAt(v.s, i)
  {
    if ctx.InSet? && v.Str? {
      RewriteUnchangedIff(v.s, ctx.number);
    }
  }

  /**
   * `add_validator` appends one bound validator with this call's arguments;
   * every earlier registration under the same factory name is rebound with
   * those arguments too, and every other one keeps its binding.
   */
  lemma BindAllWithValidator(t: Template, v: Validator, args: seq<Value>, kwargs: map<string, Value>, ctx: SetContext)
    requires WellFormed(t)
    ensures var bs := BindAll(WithValidator(t, v, args, kwargs), ctx);
      && |bs| == |t.validators| + 1
      && bs[|t.validators|] == Bound(v, ResolveArgs(args, ctx), ResolveKwargs(kwargs, ctx))
      && forall i :: 0 <= i < |t.validators| ==>
           bs[i] == (if t.validators[i].name == v.name
                     then Bound(t.validators[i], ResolveArgs(args, ctx), ResolveKwargs(kwargs, ctx))
                     else BindAll(t, ctx)[i])
  {
    var t' := WithValidator(t, v, args, kwargs);
    forall i | 0 <= i < |t.validators|
      ensures t'.validators[i] == t.validators[i]
    {
    }
    assert t'.validators[|t.validators|] == v;
  }

  /**
   * `add_validator` keeps the validators already bound, in their order, as
   * long as the new factory's name is a new one, and binds the new one last
   * with this call's arguments.
   */
  lemma BindAllWithNewValidator(t: Template, v: Validator, args: seq<Value>, kwargs: map<string, Value>, ctx: SetContext)
    requires WellFormed(t)
    requires forall w :: w in t.validators ==> w.name != v.name
    ensures var bs := BindAll(WithValidator(t, v, args, kwargs), ctx);
      && bs == BindAll(t, ctx) + [Bound(v, ResolveArgs(args, ctx), ResolveKwargs(kwargs, ctx))]
  {
    var t' := WithValidator(t, v, args, kwargs);
    var bs := BindAll(t', ctx);
    forall i | 0 <= i < |t.validators|
      ensures bs[i] == BindAll(t, ctx)[i]
    {
      assert t'.validators[i] == t.validators[i];
      assert t.validators[i] in t.validators;
      assert t'.bags[t.validators[i].name] == t.bags[t.validators[i].name];
    }
    assert t'.validators[|t.validators|] == v;
  }

  /**
   * Registering the same factory name twice yields two bound validators that
   * both carry the arguments of the LATER registration.
   */
  lemma BindAllSharedBag(t: Template, v: Validator, a1: seq<Value>, k1: map<string, Value>,
                         a2: seq<Value>, k2: map<string, Value>, ctx: SetContext)
    requires WellFormed(t)
    ensures var bs := BindAll(WithValidator(WithValidator(t, v, a1, k1), v, a2, k2), ctx);
      && |bs| == |t.validators| + 2
      && bs[|t.validators|] == bs[|t.validators| + 1]
      && bs[|t.validators| + 1] == Bound(v, ResolveArgs(a2, ctx), ResolveKwargs(k2, ctx))
  {
    var t2 := WithValidator(WithValidator(t, v, a1, k1), v, a2, k2);
    assert t2.validators[|t.validators|] == v;
    assert t2.validators[|t.validators| + 1] == v;
  }
}
