/**
 * What `process` attaches to the form, as a function of the registry, the
 * form's own field names and the submitted pairs.
 *
 * Keys are taken in submission order. A key the form already has (one of its
 * static fields, or a dynamic field attached for an earlier pair) is
 * skipped; an accepted key gets one field descriptor named by the literal
 * key, built from its canonical template with validators bound for its set.
 */
module Assembly {
  import opened KeyClassifier
  import opened Templates

  /** A submitted key and its value. */
  type Pair = (string, string)

  /** A field definition attached to the extended form. */
  datatype FieldDef = FieldDef(
    name: string,
    fieldLabel: string,
    fieldType: FieldType,
    args: seq<Value>,
    kwargs: map<string, Value>,
    validators: seq<BoundValidator>)

  function Names(fs: seq<FieldDef>): set<string> {
    set i | 0 <= i < |fs| :: fs[i].name
  }

  lemma NamesAppend(fs: seq<FieldDef>, d: FieldDef)
    ensures Names(fs + [d]) == Names(fs) + {d.name}
  {
    var all := fs + [d];
    assert all[|fs|] == d;
    forall x | x in Names(fs) ensures x in Names(all) {
      var i :| 0 <= i < |fs| && fs[i].name == x;
      assert all[i] == fs[i];
    }
  }

  /**
   * The field for key `key` built from template `t` in context `ctx`: named
   * by the key, with the template's label, type and own arguments, and one
   * bound validator per registration, in order.
   */
  function FieldFor(t: Template, key: string, ctx: SetContext): (d: FieldDef)
    requires WellFormed(t)
    ensures d.name == key
    ensures (d.fieldLabel, d.fieldType, d.args, d.kwargs) == (t.fieldLabel, t.fieldType, t.args, t.kwargs)
    ensures |d.validators| == |t.validators|
    ensures forall i :: 0 <= i < |t.validators| ==> d.validators[i].factory == t.validators[i]
    ensures forall i :: 0 <= i < |t.validators| ==> d.validators[i] == Bind(t, t.validators[i], ctx)
  {
    FieldDef(key, t.fieldLabel, t.fieldType, t.args, t.kwargs, BindAll(t, ctx))
  }

  /** The keyword under which a field class receives its validators. */
  const ValidatorsKeyword: string := "validators"

  /**
   * Building `d` passes `validators` twice: once explicitly and once among
   * the field's own keyword arguments, which the call itself refuses.
   */
  predicate ValidatorsTwice(d: FieldDef) {
    ValidatorsKeyword in d.kwargs
  }

  /** The index of the first field whose construction is refused, or `|fs|`. */
  function FirstValidatorsTwice(fs: seq<FieldDef>): (j: nat)
    ensures j <= |fs|
    ensures j < |fs| ==> ValidatorsTwice(fs[j])
    ensures forall i :: 0 <= i < j ==> !ValidatorsTwice(fs[i])
  {
    if fs == [] then 0
    else if ValidatorsTwice(fs[0]) then 0
    else 1 + FirstValidatorsTwice(fs[1..])
  }

  /** A list with no refused field, extended by a field that is not refused, still has none. */
  lemma FirstValidatorsTwiceSnoc(prev: seq<FieldDef>, d: FieldDef)
    requires FirstValidatorsTwice(prev) == |prev| && !ValidatorsTwice(d)
    ensures FirstValidatorsTwice(prev + [d]) == |prev| + 1
  {
    var fs := prev + [d];
    forall j | 0 <= j < |fs|
      ensures !ValidatorsTwice(fs[j])
    {
      if j < |prev| {
        assert fs[j] == prev[j];
      }
    }
    FirstValidatorsTwiceNone(fs);
  }

  /** A list that continues `prev + [d]`, with `d` the first refused field, is refused at `d`. */
  lemma FirstValidatorsTwiceAt(prev: seq<FieldDef>, d: FieldDef, fs: seq<FieldDef>)
    requires prev + [d] <= fs && ValidatorsTwice(d)
    requires FirstValidatorsTwice(prev) == |prev|
    ensures |prev| < |fs| && fs[|prev|] == d && FirstValidatorsTwice(fs) == |prev|
  {
    assert fs[|prev|] == (prev + [d])[|prev|];
    forall j | 0 <= j < |prev|
      ensures !ValidatorsTwice(fs[j])
    {
      assert fs[j] == (prev + [d])[j];
    }
  }

  /** A list with no refused field reports none. */
  lemma {:induction false} FirstValidatorsTwiceNone(fs: seq<FieldDef>)
    requires forall j :: 0 <= j < |fs| ==> !ValidatorsTwice(fs[j])
    ensures FirstValidatorsTwice(fs) == |fs|
    decreases |fs|
  {
    if fs != [] {
      FirstValidatorsTwiceNone(fs[1..]);
    }
  }

  /**
   * When the pass over the first `i` pairs attached no refused field and
   * pair `i` attaches refused field `d`, the whole pass is refused at `d`.
   */
  lemma AssembleRefusedAt(fields: map<string, Template>, staticNames: set<string>, post: seq<Pair>, i: nat, d: FieldDef)
    requires AllWellFormed(fields) && i < |post|
    requires var prev := Assemble(fields, staticNames, post[..i]);
      && Assemble(fields, staticNames, post[..i + 1]) == prev + [d]
      && FirstValidatorsTwice(prev) == |prev|
    requires ValidatorsTwice(d)
    ensures var fs := Assemble(fields, staticNames, post);
      FirstValidatorsTwice(fs) < |fs| && fs[FirstValidatorsTwice(fs)] == d
  {
    var prev := Assemble(fields, staticNames, post[..i]);
    var fs := Assemble(fields, staticNames, post);
    AssemblePrefix(fields, staticNames, post, i + 1);
    FirstValidatorsTwiceAt(prev, d, fs);
  }

  /** The field an accepted key yields, given its classification. */
  ghost predicate Describes(fields: map<string, Template>, staticNames: set<string>, d: FieldDef)
    requires AllWellFormed(fields)
  {
    var c := Classify(d.name, staticNames, fields.Keys);
    c.Accepted() && d == FieldFor(fields[c.name], d.name, c.Context())
  }

  /**
   * Handles one submitted key given the fields attached so far: a key the
   * form already has changes nothing, and otherwise at most one field named
   * by the key is appended.
   */
  function Step(fields: map<string, Template>, staticNames: set<string>, fs: seq<FieldDef>, key: string): (r: seq<FieldDef>)
    requires AllWellFormed(fields)
    ensures key in staticNames + Names(fs) ==> r == fs
    ensures fs <= r && |r| <= |fs| + 1
    ensures |r| > |fs| ==> r[|fs|].name == key
  {
    var c := Classify(key, staticNames + Names(fs), fields.Keys);
    if c.Accepted() then fs + [FieldFor(fields[c.name], key, c.Context())] else fs
  }

  /** The dynamic fields attached for `post`: at most one per submitted pair. */
  function Assemble(fields: map<string, Template>, staticNames: set<string>, post: seq<Pair>): (fs: seq<FieldDef>)
    requires AllWellFormed(fields)
    ensures |fs| <= |post|
    decreases |post|
  {
    if post == [] then []
    else
      var prev := Assemble(fields, staticNames, post[..|post| - 1]);
      Step(fields, staticNames, prev, post[|post| - 1].0)
  }

  /**
   * No attached field shares a name with a static field or with another,
   * and each is the descriptor its own key yields.
   */
  lemma {:induction false} AssembleSound(fields: map<string, Template>, staticNames: set<string>, post: seq<Pair>)
    requires AllWellFormed(fields)
    ensures var fs := Assemble(fields, staticNames, post);
      && Names(fs) !! staticNames
      && (forall j, j' :: 0 <= j < j' < |fs| ==> fs[j].name != fs[j'].name)
      && (forall j :: 0 <= j < |fs| ==> Describes(fields, staticNames, fs[j]))
    decreases |post|
  {
    if post != [] {
      var init, key := post[..|post| - 1], post[|post| - 1].0;
      var prev := Assemble(fields, staticNames, init);
      AssembleSound(fields, staticNames, init);
      var c := Classify(key, staticNames + Names(prev), fields.Keys);
      if c.Accepted() {
        var d := FieldFor(fields[c.name], key, c.Context());
        var fs := prev + [d];
        AssembleLast(fields, staticNames, post);
        NamesAppend(prev, d);
        assert Classify(key, staticNames, fields.Keys) == c;
        assert fs[|prev|] == d;
        forall j | 0 <= j < |prev|
          ensures fs[j] == prev[j] && prev[j].name != key
        {
          assert prev[j].name in Names(prev);
        }
      }
    }
  }

  /** A non-empty pass is the pass without its last pair, then one step. */
  lemma AssembleLast(fields: map<string, Template>, staticNames: set<string>, post: seq<Pair>)
    requires AllWellFormed(fields) && post != []
    ensures Assemble(fields, staticNames, post)
         == Step(fields, staticNames, Assemble(fields, staticNames, post[..|post| - 1]), post[|post| - 1].0)
  {
  }

  /**
   * The pass over the first `i + 1` pairs is the pass over `i` pairs, then
   * pair `i`: its field appended when its key is accepted, nothing otherwise.
   */
  lemma AssembleSnoc(fields: map<string, Template>, staticNames: set<string>, post: seq<Pair>, i: nat)
    requires AllWellFormed(fields) && i < |post|
    ensures var prev := Assemble(fields, staticNames, post[..i]);
      var c := Classify(post[i].0, staticNames + Names(prev), fields.Keys);
      Assemble(fields, staticNames, post[..i + 1])
        == if c.Accepted() then prev + [FieldFor(fields[c.name], post[i].0, c.Context())] else prev
  {
    assert post[..i + 1][..i] == post[..i];
    AssembleLast(fields, staticNames, post[..i + 1]);
  }

  /** Whether `name` is the key of one of the pairs of `post`. */
  predicate Submitted(post: seq<Pair>, name: string) {
    exists i :: 0 <= i < |post| && post[i].0 == name
  }

  /** A name is among the keys of `post` exactly when it is among the earlier keys or is the last. */
  lemma SubmittedLast(post: seq<Pair>, name: string)
    requires post != []
    ensures Submitted(post, name) <==> Submitted(post[..|post| - 1], name) || post[|post| - 1].0 == name
  {
    var init := post[..|post| - 1];
    if exists i :: 0 <= i < |init| && init[i].0 == name {
      var i :| 0 <= i < |init| && init[i].0 == name;
      assert post[i] == init[i];
    }
    if exists i :: 0 <= i < |post| && post[i].0 == name {
      var i :| 0 <= i < |post| && post[i].0 == name;
      if i < |init| {
        assert init[i] == post[i];
      }
    }
  }

  /**
   * One step attaches the key's name exactly when the form does not have it
   * yet and the key is accepted against the static fields alone.
   */
  lemma StepNames(fields: map<string, Template>, staticNames: set<string>, prev: seq<FieldDef>, key: string)
    requires AllWellFormed(fields)
    ensures Names(Step(fields, staticNames, prev, key))
         == Names(prev) + (if key !in Names(prev) && Classify(key, staticNames, fields.Keys).Accepted() then {key} else {})
  {
    var c := Classify(key, staticNames + Names(prev), fields.Keys);
    if key in Names(prev) {
      assert Step(fields, staticNames, prev, key) == prev;
    } else {
      ClassifyPresent(key, staticNames + Names(prev), staticNames, fields.Keys);
      if c.Accepted() {
        var d := FieldFor(fields[c.name], key, c.Context());
        assert Step(fields, staticNames, prev, key) == prev + [d];
        NamesAppend(prev, d);
      } else {
        assert Step(fields, staticNames, prev, key) == prev;
      }
    }
  }

  /**
   * A name is attached exactly when it was submitted and the key is accepted
   * against the static fields: an exact registered name or a registered
   * prefix with a digit suffix. Static keys and unrecognised keys yield
   * nothing, and they do not stop the keys after them.
   */
  lemma {:induction false} AssembleNames(fields: map<string, Template>, staticNames: set<string>, post: seq<Pair>, name: string)
    requires AllWellFormed(fields)
    ensures name in Names(Assemble(fields, staticNames, post))
        <==> Submitted(post, name) && Classify(name, staticNames, fields.Keys).Accepted()
    decreases |post|
  {
    if post != [] {
      var init, key := post[..|post| - 1], post[|post| - 1].0;
      var prev := Assemble(fields, staticNames, init);
      AssembleNames(fields, staticNames, init, name);
      SubmittedLast(post, name);
      AssembleLast(fields, staticNames, post);
      StepNames(fields, staticNames, prev, key);
    }
  }

  /** Submitting more pairs never removes or reorders fields already attached. */
  lemma {:induction false} AssembleExtends(fields: map<string, Template>, staticNames: set<string>, post: seq<Pair>, more: seq<Pair>)
    requires AllWellFormed(fields)
    ensures Assemble(fields, staticNames, post) <= Assemble(fields, staticNames, post + more)
    decreases |more|
  {
    if more == [] {
      assert post + more == post;
    } else {
      var all := post + more;
      var init := more[..|more| - 1];
      AssembleExtends(fields, staticNames, post, init);
      assert all[..|all| - 1] == post + init;
      var a := Assemble(fields, staticNames, post);
      var b := Assemble(fields, staticNames, post + init);
      var c := Assemble(fields, staticNames, all);
      assert b <= c by {
        AssembleLast(fields, staticNames, all);
      }
      forall k | 0 <= k < |a|
        ensures c[k] == a[k]
      {
        assert b[k] == a[k];
      }
    }
  }

  /** The pass over a prefix of the pairs attaches a prefix of the fields. */
  lemma AssemblePrefix(fields: map<string, Template>, staticNames: set<string>, post: seq<Pair>, k: nat)
    requires AllWellFormed(fields) && k <= |post|
    ensures Assemble(fields, staticNames, post[..k]) <= Assemble(fields, staticNames, post)
  {
    var more := post[k..];
    assert post[..k] + more == post;
    AssembleExtends(fields, staticNames, post[..k], more);
  }

  /**
   * A canonical name neither submitted itself nor as `<name>_<digits>`
   * gives no field a template of its own: every attached field comes from a
   * canonical name that was submitted in one of those two shapes (or, with the
   * empty canonical name, as a bare digit key).
   */
  lemma AssembleOrigin(fields: map<string, Template>, staticNames: set<string>, post: seq<Pair>)
    requires AllWellFormed(fields)
    ensures var fs := Assemble(fields, staticNames, post);
      forall j :: 0 <= j < |fs| ==>
        var c := Classify(fs[j].name, staticNames, fields.Keys);
        && Submitted(post, fs[j].name)
        && c.Accepted() && c.name in fields
        && (fs[j].name == c.name || fs[j].name == c.name + [Separator] + c.number || (c.name == "" && fs[j].name == c.number))
  {
    var fs := Assemble(fields, staticNames, post);
    forall j | 0 <= j < |fs|
      ensures var c := Classify(fs[j].name, staticNames, fields.Keys);
        && Submitted(post, fs[j].name)
        && c.Accepted() && c.name in fields
        && (fs[j].name == c.name || fs[j].name == c.name + [Separator] + c.number || (c.name == "" && fs[j].name == c.number))
    {
      var d := fs[j];
      assert d.name in Names(fs);
      AssembleNames(fields, staticNames, post, d.name);
      var c := Classify(d.name, staticNames, fields.Keys);
      if c.SetMember? {
        ClassifySetMemberSound(d.name, staticNames, fields.Keys);
      }
    }
  }

  /**
   * A key submitted a second time attaches nothing new: either its first
   * occurrence attached its field, which the form then has, or it was a
   * static or unrecognised key, and it still is.
   */
  lemma AssembleRepeatedKey(fields: map<string, Template>, staticNames: set<string>, post: seq<Pair>, key: string, value: string)
    requires AllWellFormed(fields)
    requires Submitted(post, key)
    ensures Assemble(fields, staticNames, post + [(key, value)]) == Assemble(fields, staticNames, post)
  {
    var all := post + [(key, value)];
    assert all[..|all| - 1] == post;
    var prev := Assemble(fields, staticNames, post);
    AssembleNames(fields, staticNames, post, key);
    assert !Classify(key, staticNames + Names(prev), fields.Keys).Accepted();
  }

  /**
   * When no registered field keeps `validators` among its own keyword
   * arguments, no attached field is refused.
   */
  lemma AssembleWithoutValidatorsKeyword(fields: map<string, Template>, staticNames: set<string>, post: seq<Pair>)
    requires AllWellFormed(fields)
    requires forall c :: c in fields ==> ValidatorsKeyword !in fields[c].kwargs
    ensures var fs := Assemble(fields, staticNames, post);
      FirstValidatorsTwice(fs) == |fs|
  {
    var fs := Assemble(fields, staticNames, post);
    AssembleSound(fields, staticNames, post);
    forall j | 0 <= j < |fs|
      ensures !ValidatorsTwice(fs[j])
    {
      assert Describes(fields, staticNames, fs[j]);
    }
  }

  /** Pairs whose keys are all static fields attach nothing. */
  lemma {:induction false} AssembleAllStatic(fields: map<string, Template>, staticNames: set<string>, post: seq<Pair>)
    requires AllWellFormed(fields)
    requires forall i :: 0 <= i < |post| ==> post[i].0 in staticNames
    ensures Assemble(fields, staticNames, post) == []
    decreases |post|
  {
    if post != [] {
      AssembleAllStatic(fields, staticNames, post[..|post| - 1]);
    }
  }

  /**
   * Static keys followed by an exact registered name: the only field
   * attached is that name's, outside any set.
   */
  lemma AssembleStaticThenCanonical(fields: map<string, Template>, staticNames: set<string>, post: seq<Pair>, c: string, value: string)
    requires AllWellFormed(fields)
    requires c in fields && c !in staticNames
    requires forall i :: 0 <= i < |post| ==> post[i].0 in staticNames
    ensures Assemble(fields, staticNames, post + [(c, value)]) == [FieldFor(fields[c], c, NoSet)]
  {
    var all := post + [(c, value)];
    assert all[..|all| - 1] == post;
    AssembleAllStatic(fields, staticNames, post);
  }

  /** A new set member of a registered field gets its field, bound for its set number. */
  lemma StepSetMember(fields: map<string, Template>, staticNames: set<string>, prev: seq<FieldDef>, c: string, n: string)
    requires AllWellFormed(fields) && c in fields && IsDigits(n)
    requires c + [Separator] + n !in staticNames + Names(prev) + fields.Keys
    ensures var key := c + [Separator] + n;
      Step(fields, staticNames, prev, key) == prev + [FieldFor(fields[c], key, InSet(n))]
  {
    ClassifySetMember(c, n, staticNames + Names(prev), fields.Keys);
  }

  /** A lone set member of a registered field gets its field, bound for its set number. */
  lemma AssembleOneSet(fields: map<string, Template>, staticNames: set<string>, c: string, n: string, v: string)
    requires AllWellFormed(fields) && c in fields && IsDigits(n)
    requires c + [Separator] + n !in staticNames + fields.Keys
    ensures var k := c + [Separator] + n;
      Assemble(fields, staticNames, [(k, v)]) == [FieldFor(fields[c], k, InSet(n))]
  {
    var post := [(c + [Separator] + n, v)];
    assert post[..0] == [];
    AssembleLast(fields, staticNames, post);
    assert Names([]) == {};
    StepSetMember(fields, staticNames, [], c, n);
  }

  /**
   * Two members of different sets of one field each get a field of their
   * own, with validators bound for their own set number.
   */
  lemma AssembleTwoSets(fields: map<string, Template>, staticNames: set<string>, c: string,
                        n1: string, v1: string, n2: string, v2: string)
    requires AllWellFormed(fields) && c in fields
    requires IsDigits(n1) && IsDigits(n2) && n1 != n2
    requires c + [Separator] + n1 !in staticNames + fields.Keys
    requires c + [Separator] + n2 !in staticNames + fields.Keys
    ensures var k1, k2 := c + [Separator] + n1, c + [Separator] + n2;
      Assemble(fields, staticNames, [(k1, v1), (k2, v2)])
        == [FieldFor(fields[c], k1, InSet(n1)), FieldFor(fields[c], k2, InSet(n2))]
  {
    var k1, k2 := c + [Separator] + n1, c + [Separator] + n2;
    assert k1 != k2 by {
      assert k1[|c| + 1..] == n1 && k2[|c| + 1..] == n2;
    }
    var post := [(k1, v1), (k2, v2)];
    var d1 := FieldFor(fields[c], k1, InSet(n1));
    assert post[..1] == [(k1, v1)];
    AssembleOneSet(fields, staticNames, c, n1, v1);
    NamesAppend([], d1);
    assert [] + [d1] == [d1];
    AssembleLast(fields, staticNames, post);
    StepSetMember(fields, staticNames, [d1], c, n2);
  }
}
