/**
 * The configuration object and its `process` pass.
 *
 * `WTFormsDynamicFields` holds the registry of field templates, updated in place by
 * `AddField` and `AddValidator`. `Process` walks the submitted pairs once,
 * builds the validators of every accepted key, and returns the extended form:
 * the static fields plus the attached dynamic fields, instantiated either
 * already bound (Flask-WTF) or bound to the submitted data.
 */
module DynamicFields {
  import opened KeyClassifier
  import opened Templates
  import opened Assembly

  datatype Error =
    | DuplicateField(name: string)  // `add_field` on a name already added
    | UnknownField(name: string)    // `add_validator` on a name never added
    | NotAForm                      // `process` given something that is not a form class
    | MultipleValidatorsValues(name: string)  // field `name` built with `validators` passed twice

  datatype Outcome = Pass | Fail(error: Error)

  datatype Result<T> = Ok(value: T) | Err(error: Error)

  /** The form class handed to `process`: whether it is one, and its own fields. */
  datatype FormClass = FormClass(isFormClass: bool, staticFields: set<string>)

  /** How the extended form is instantiated. */
  datatype Binding =
    | PreBound                  // Flask-WTF forms pick up the request data themselves
    | BoundTo(data: seq<Pair>)  // plain forms are given the submitted data

  /** The instantiated extended form. */
  datatype FormInstance = FormInstance(staticFields: set<string>, dynamicFields: seq<FieldDef>, binding: Binding)

  /** Resolves positional validator arguments for one occurrence. */
  method ResolveArgList(args: seq<Value>, ctx: SetContext) returns (out: seq<Value>)
    ensures |out| == |args|
    ensures forall i :: 0 <= i < |args| ==> out[i] == ResolveValue(args[i], ctx)
    ensures out == ResolveArgs(args, ctx)
  {
    if ctx.NoSet? {
      return args;
    }
    out := [];
    for i := 0 to |args|
      invariant |out| == i
      invariant forall j :: 0 <= j < i ==> out[j] == ResolveValue(args[j], ctx)
    {
      var arg := args[i];
      if arg.Str? {
        // a string: rewrite its tokens; anything else raises inside the
        // regex call and is kept as it is
        arg := Str(Placeholder.Rewrite(arg.s, ctx.number));
      }
      out := out + [arg];
    }
  }

  /** Resolves keyword validator arguments for one occurrence, into a new map. */
  method ResolveKwargMap(kwargs: map<string, Value>, ctx: SetContext) returns (out: map<string, Value>)
    ensures out.Keys == kwargs.Keys
    ensures forall k :: k in kwargs ==> out[k] == ResolveValue(kwargs[k], ctx)
    ensures out == ResolveKwargs(kwargs, ctx)
  {
    if ctx.NoSet? {
      return kwargs;
    }
    out := map[];
    var todo := kwargs.Keys;
    while todo != {}
      invariant todo <= kwargs.Keys
      invariant out.Keys == kwargs.Keys - todo
      invariant forall k :: k in out ==> out[k] == ResolveValue(kwargs[k], ctx)
      decreases |todo|
    {
      var key :| key in todo;
      var arg := kwargs[key];
      if arg.Str? {
        arg := Str(Placeholder.Rewrite(arg.s, ctx.number));
      }
      out := out[key := arg];
      todo := todo - {key};
    }
    forall k | k in kwargs
      ensures out[k] == ResolveKwargs(kwargs, ctx)[k]
    {
      ResolveKwargsAt(kwargs, ctx, k);
    }
  }

  /** Builds the validators of template `t` for one occurrence, in registration order. */
  method BindValidators(t: Template, ctx: SetContext) returns (validators: seq<BoundValidator>)
    requires WellFormed(t)
    ensures validators == BindAll(t, ctx)
  {
    validators := [];
    for i := 0 to |t.validators|
      invariant |validators| == i
      invariant forall j :: 0 <= j < i ==> validators[j] == Bind(t, t.validators[j], ctx)
    {
      var v := t.validators[i];
      assert v in t.validators;
      var bag := t.bags[v.name];
      var args := ResolveArgList(bag.args, ctx);
      var kwargs := ResolveKwargMap(bag.kwargs, ctx);
      validators := validators + [Bound(v, args, kwargs)];
    }
  }

  /**
   * Builds the field for one accepted key: its validators bound for the
   * key's set, then the field named by the key from the template.
   */
  method BuildField(t: Template, key: string, ctx: SetContext) returns (d: FieldDef)
    requires WellFormed(t)
    ensures d == FieldFor(t, key, ctx)
  {
    var validators := BindValidators(t, ctx);
    d := FieldDef(key, t.fieldLabel, t.fieldType, t.args, t.kwargs, validators);
  }

  /**
   * One turn of the loop of `process`: handles pair `i` given the fields
   * attached for the pairs before it. Either the pair's field is refused,
   * which ends the whole pass at that key, or the attached fields become
   * those for the first `i + 1` pairs.
   */
  method AttachOne(fields: map<string, Template>, staticNames: set<string>, post: seq<Pair>, i: nat,
                   attached: seq<FieldDef>)
    returns (next: seq<FieldDef>, refused: bool)
    requires AllWellFormed(fields) && i < |post|
    requires attached == Assemble(fields, staticNames, post[..i])
    requires FirstValidatorsTwice(attached) == |attached|
    ensures refused ==>
      var fs := Assemble(fields, staticNames, post);
      FirstValidatorsTwice(fs) < |fs| && fs[FirstValidatorsTwice(fs)].name == post[i].0
    ensures !refused ==>
      next == Assemble(fields, staticNames, post[..i + 1]) && FirstValidatorsTwice(next) == |next|
  {
    var key := post[i].0;
    var c := Classify(key, staticNames + Names(attached), fields.Keys);
    if c.Accepted() {
      var t := fields[c.name];
      var d := BuildField(t, key, c.Context());
      assert Assemble(fields, staticNames, post[..i + 1]) == attached + [d] by {
        AssembleSnoc(fields, staticNames, post, i);
      }
      if ValidatorsKeyword in t.kwargs {
        AssembleRefusedAt(fields, staticNames, post, i, d);
        return attached, true;
      }
      FirstValidatorsTwiceSnoc(attached, d);
      return attached + [d], false;
    }
    assert Assemble(fields, staticNames, post[..i + 1]) == attached by {
      AssembleSnoc(fields, staticNames, post, i);
    }
    return attached, false;
  }

  /**
   * The loop of `process`: walks the submitted pairs in order and attaches
   * the field of every accepted key the form does not have yet, stopping at
   * the first field whose construction is refused.
   */
  method AttachFields(fields: map<string, Template>, staticNames: set<string>, post: seq<Pair>)
    returns (r: Result<seq<FieldDef>>)
    requires AllWellFormed(fields)
    ensures var fs := Assemble(fields, staticNames, post);
      var j := FirstValidatorsTwice(fs);
      && (j < |fs| ==> r == Err(MultipleValidatorsValues(fs[j].name)))
      && (j == |fs| ==> r == Ok(fs))
  {
    var attached: seq<FieldDef> := [];
    for i := 0 to |post|
      invariant attached == Assemble(fields, staticNames, post[..i])
      invariant FirstValidatorsTwice(attached) == |attached|
    {
      var next, refused := AttachOne(fields, staticNames, post, i, attached);
      if refused {
        return Err(MultipleValidatorsValues(post[i].0));
      }
      attached := next;
    }
    assert post[..|post|] == post;
    r := Ok(attached);
  }

  class WTFormsDynamicFields {
    /** The registry: canonical field name to template. */
    var fields: map<string, Template>
    /** Whether the forms are Flask-WTF forms, fixed at construction. */
    const flaskWtf: bool

    ghost predicate Valid()
      reads this
    {
      AllWellFormed(fields)
    }

    constructor (flaskWtf: bool)
      ensures Valid()
      ensures fields == map[] && this.flaskWtf == flaskWtf
    {
      fields := map[];
      this.flaskWtf := flaskWtf;
    }

    /** Registers a field; a name already registered is refused and nothing changes. */
    method AddField(name: string, fieldLabel: string, fieldType: FieldType, args: seq<Value>, kwargs: map<string, Value>)
      returns (r: Outcome)
      requires Valid()
      modifies this
      ensures Valid()
      ensures name in old(fields) ==> r == Fail(DuplicateField(name)) && fields == old(fields)
      ensures name !in old(fields) ==>
        && r == Pass
        && fields == old(fields)[name := NewTemplate(fieldLabel, fieldType, args, kwargs)]
    {
      if name in fields {
        return Fail(DuplicateField(name));
      }
      fields := fields[name := NewTemplate(fieldLabel, fieldType, args, kwargs)];
      r := Pass;
    }

    /**
     * Appends a validator to a registered field and records its arguments
     * under the validator's name; an unknown field is refused and nothing
     * changes.
     */
    method AddValidator(name: string, validator: Validator, args: seq<Value>, kwargs: map<string, Value>)
      returns (r: Outcome)
      requires Valid()
      modifies this
      ensures Valid()
      ensures name !in old(fields) ==> r == Fail(UnknownField(name)) && fields == old(fields)
      ensures name in old(fields) ==>
        && r == Pass
        && fields == old(fields)[name := WithValidator(old(fields)[name], validator, args, kwargs)]
      ensures fields.Keys == old(fields.Keys)
    {
      if name !in fields {
        return Fail(UnknownField(name));
      }
      var t := fields[name];
      fields := fields[name := WithValidator(t, validator, args, kwargs)];
      r := Pass;
    }

    /**
     * Extends `form` with one dynamic field per accepted submitted key and
     * instantiates it. Keys that are static fields or that name no
     * registered field are passed over without error. Building a field whose
     * template keeps `validators` among its own keyword arguments is refused
     * by the call itself, which ends the pass with that field's key.
     */
    method Process(form: FormClass, post: seq<Pair>) returns (r: Result<FormInstance>)
      requires Valid()
      ensures !form.isFormClass ==> r == Err(NotAForm)
      ensures form.isFormClass ==>
        var fs := Assemble(fields, form.staticFields, post);
        var j := FirstValidatorsTwice(fs);
        && (j < |fs| ==> r == Err(MultipleValidatorsValues(fs[j].name)))
        && (j == |fs| ==>
              && r.Ok?
              && r.value.staticFields == form.staticFields
              && r.value.dynamicFields == fs
              && r.value.binding == (if flaskWtf then PreBound else BoundTo(post)))
    {
      if !form.isFormClass {
        return Err(NotAForm);
      }
      var attached := AttachFields(fields, form.staticFields, post);
      if attached.Err? {
        return Err(attached.error);
      }
      var binding := if flaskWtf then PreBound else BoundTo(post);
      r := Ok(FormInstance(form.staticFields, attached.value, binding));
    }
  }
}
