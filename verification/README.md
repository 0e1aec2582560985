# wtforms-dynamic-fields, modelled in Dafny

`WTFormsDynamicFields` extends a WTForms form with fields that only exist at
request time. A configuration object keeps a registry of field templates:
`add_field` registers a canonical field name with its label, field type and
construction arguments, and `add_validator` appends a validator factory with
its arguments to a registered field. `process` then walks the submitted
key/value pairs once. Each key is sorted into one of four cases:

- a field the form already has, which is skipped;
- an exact registered name, meaning no set;
- `<registered name>_<digits>`, a member of a numbered set;
- anything else, which is dropped without error.

Each accepted key gets a field named by the literal key. The field is built
from its canonical template. Its validators are bound in registration order.
Inside set `n`, every `%ident%` token in a string validator argument becomes
`ident_n`.

The project has five modules:

- `Placeholder` (`placeholder.dfy`): the `%ident%` pattern as a left-to-right
  scanner `Rewrite`. Beside it sits a set-independent parse (`Parse`,
  `Unparse`, `Fill`), so each set's rewrite is one parse with the set number
  filled in.
- `KeyClassifier` (`key_classifier.dfy`): `LastSegment`, `Prefix` and
  `Classify`. These are Python's `split('_')[-1]` and negative slicing,
  written out.
- `Templates` (`templates.dfy`): argument values, field templates,
  validator argument bags, argument resolution and validator binding.
- `Assembly` (`assembly.dfy`): `Assemble` is the list of field descriptors
  that `process` attaches, as a function of the registry, the form's static
  field names and the submitted pairs.
- `DynamicFields` (`dynamic_fields.dfy`): the class
  `WTFormsDynamicFields`. Its registry is a `map` field. `AddField` and
  `AddValidator` update that field in place. `Process` runs the loop
  `AttachFields`, which is proved equal to `Assemble`. The nested loops
  that resolve arguments and bind validators are methods proved equal to
  their specification functions.

Behaviour that follows the code as written:

- **Argument bags are keyed by the factory's name.** Registering the same
  factory twice on one field gives two validators, and both carry the later
  call's arguments (`BindAllWithValidator`, `BindAllSharedBag`). This also
  holds for two different factories that share a `__name__`.
- **A key without any underscore is its own last segment.** For such a key,
  `key[:-(len(key)) - 1]` is the empty string. So an all-digit key such as
  `7` is a member of set `7` of the empty canonical name when `""` is
  registered (`ClassifyBareDigits`).
- **A repeated key attaches once.** After `setattr`, the form class reports
  the new field as one of its own, so a later occurrence of the same key is
  skipped. Re-attaching would build the same descriptor from the same
  template and set (`AssembleRepeatedKey`).
- **The empty identifier is a token.** `%%` in a set argument becomes `_n`.
- **Only strings are rewritten.** Anything else passes `re.sub`'s failure
  silently and is kept unchanged.
- **`validators` cannot be a field keyword argument.** The field is built
  with `validators=` and the template's own keyword arguments. When those
  arguments also hold `validators`, the call fails with a `TypeError`, which
  ends `process`. The model returns `MultipleValidatorsValues` with the key
  of the first such field; fields attached before it are lost with the
  form.

## Model

| member | source | states |
|---|---|---|
| DynamicFields.WTFormsDynamicFields.constructor | wtforms_dynamic_fields/wtforms_dynamic_fields.py:37-42 | the registry starts empty and the Flask-WTF flag is the one given |
| DynamicFields.WTFormsDynamicFields.AddField | wtforms_dynamic_fields/wtforms_dynamic_fields.py:44-50 | a name already registered fails with DuplicateField and leaves the registry as it was; a fresh name maps to a template with the given label, type, args and kwargs and no validators, and every other entry is unchanged |
| DynamicFields.WTFormsDynamicFields.AddValidator | wtforms_dynamic_fields/wtforms_dynamic_fields.py:52-76 | an unregistered name fails with UnknownField and changes nothing; otherwise only that name's template changes, to the template with the validator appended and its bag replaced; the set of registered names never changes |
| DynamicFields.WTFormsDynamicFields.Process | wtforms_dynamic_fields/wtforms_dynamic_fields.py:90-214 | a non-form fails with NotAForm; otherwise, when some attached field's template keeps `validators` among its own keyword arguments, the pass fails with MultipleValidatorsValues naming the first such field's key; else the result keeps the static fields, attaches exactly Assemble of the registry, static names and pairs, and is pre-bound for Flask-WTF and bound to the pairs otherwise |
| DynamicFields.AttachFields | wtforms_dynamic_fields/wtforms_dynamic_fields.py:117-204 | the loop over the pairs returns exactly Assemble of the registry, static names and pairs, or stops with MultipleValidatorsValues at the first attached field whose template's keyword arguments hold `validators`, and at no other point |
| DynamicFields.AttachOne | wtforms_dynamic_fields/wtforms_dynamic_fields.py:117-204 | one turn of the loop: either the pair's field is refused and the whole pass is refused at that pair's key, or the fields attached so far become those for one more pair, still with none refused |
| DynamicFields.BuildField | wtforms_dynamic_fields/wtforms_dynamic_fields.py:148-204 | the field built for an accepted key is FieldFor of its template, key and set |
| DynamicFields.ResolveArgList | wtforms_dynamic_fields/wtforms_dynamic_fields.py:151-171 | the loop yields a new list of the same length whose every element is the resolution of the declared one in the key's set |
| DynamicFields.ResolveKwargMap | wtforms_dynamic_fields/wtforms_dynamic_fields.py:172-190 | the loop yields a new dictionary with the same keys whose every value is the resolution of the declared one |
| DynamicFields.BindValidators | wtforms_dynamic_fields/wtforms_dynamic_fields.py:148-193 | the nested loops bind exactly BindAll of the template in the key's set: one validator per registration, in registration order |
| Templates.NewTemplate | wtforms_dynamic_fields/wtforms_dynamic_fields.py:49-50 | a newly added field keeps exactly the label, type, positional and keyword arguments it was given, has no validators, and is well formed |
| Templates.WithValidator | wtforms_dynamic_fields/wtforms_dynamic_fields.py:63-73 | the validator is appended after the earlier ones, its name gains a bag, label, type and field arguments are kept, and well-formedness is preserved |
| Templates.ResolveValue | wtforms_dynamic_fields/wtforms_dynamic_fields.py:164-170 | outside a set, and for any value that is not a string, the value is kept; in set n a string becomes its set-independent parse with n filled after every token |
| Templates.ResolveArgs | wtforms_dynamic_fields/wtforms_dynamic_fields.py:151-171 | resolution keeps the length and resolves each element on its own; outside a set the declared list itself is used |
| Templates.ResolveKwargs | wtforms_dynamic_fields/wtforms_dynamic_fields.py:172-190 | the keys are kept; outside a set the declared dictionary itself is used; inside set n every non-string value is kept and every string value becomes its parse with n filled after every token |
| Templates.ResolveValueUnchangedIff | wtforms_dynamic_fields/wtforms_dynamic_fields.py:155-170 | an argument is left as declared exactly when there is no set, it is not a string, or it holds no token |
| Templates.Bind | wtforms_dynamic_fields/wtforms_dynamic_fields.py:153-193 | a bound validator has its own factory, and every positional and keyword argument of the bag stored under the factory's name resolved for the key's set (same length, same keyword names); outside a set it gets exactly that bag's arguments |
| Templates.BindAll | wtforms_dynamic_fields/wtforms_dynamic_fields.py:148-193 | one bound validator per registration with the factories in registration order, and registrations sharing a `__name__` get equal arguments |
| Templates.BindAllWithValidator | wtforms_dynamic_fields/wtforms_dynamic_fields.py:63-73 | after adding a factory, the new validator comes last with this call's arguments, every earlier registration with the same `__name__` is rebound with those arguments too, and every other earlier one is bound as before |
| Templates.BindAllWithNewValidator | wtforms_dynamic_fields/wtforms_dynamic_fields.py:63-70 | adding a factory with a new name keeps the validators bound before it, in order, and binds the new one last with this call's arguments |
| Templates.BindAllSharedBag | wtforms_dynamic_fields/wtforms_dynamic_fields.py:65-70 | the back-to-back case: registering one factory name twice in a row gives two equal bound validators, both with the later call's arguments |
| KeyClassifier.LastSegment | wtforms_dynamic_fields/wtforms_dynamic_fields.py:128 | the segment is a suffix of the key with no underscore, and when it is shorter than the key an underscore comes just before it |
| KeyClassifier.LastSegmentAfter | wtforms_dynamic_fields/wtforms_dynamic_fields.py:128 | the last segment is exactly what follows the last underscore |
| KeyClassifier.Prefix | wtforms_dynamic_fields/wtforms_dynamic_fields.py:129-135 | with an underscore the key is the prefix, an underscore and the last segment; without one the negative slice gives the empty prefix |
| KeyClassifier.IsDigits | wtforms_dynamic_fields/wtforms_dynamic_fields.py:128 | no contract of its own: `isdigit` as non-empty and ASCII digits only; DigitsWithoutSeparator states that such a segment holds no underscore |
| KeyClassifier.DigitsWithoutSeparator | wtforms_dynamic_fields/wtforms_dynamic_fields.py:128 | an all-digit segment is non-empty and holds no underscore |
| KeyClassifier.Classify | wtforms_dynamic_fields/wtforms_dynamic_fields.py:117-143 | a key is a form field exactly when it is present; a canonical key names itself; a set member is not itself registered and has an all-digit number; an accepted key always names a registered canonical field |
| KeyClassifier.ClassifyPresent | wtforms_dynamic_fields/wtforms_dynamic_fields.py:118 | only whether the key itself is present matters, not which other names are |
| KeyClassifier.SplitAtLastSeparator | wtforms_dynamic_fields/wtforms_dynamic_fields.py:128-135 | `c_n` with no underscore in n splits into last segment n and prefix c, whatever c holds |
| KeyClassifier.ClassifyCanonicalFirst | wtforms_dynamic_fields/wtforms_dynamic_fields.py:122-127 | an exact registered name that is not a form field is canonical, before the suffix rule is tried |
| KeyClassifier.ClassifySetMember | wtforms_dynamic_fields/wtforms_dynamic_fields.py:128-138 | `c_n` with c registered and n all digits is member n of c, unless it is a form field or itself a registered name |
| KeyClassifier.ClassifySetMemberSound | wtforms_dynamic_fields/wtforms_dynamic_fields.py:128-138 | a set member is neither present nor registered, has an all-digit number and a registered name, and is `name_number`, or a bare digit key under the empty name |
| KeyClassifier.ClassifyUnrecognized | wtforms_dynamic_fields/wtforms_dynamic_fields.py:139-143 | a dropped key is neither present nor registered, no split of it into `c_n` with n all digits has c registered, and when it is all digits the empty canonical name is not registered |
| KeyClassifier.ClassifyBareDigits | wtforms_dynamic_fields/wtforms_dynamic_fields.py:128-138 | an all-digit key is a member of the empty canonical name when that name is registered |
| KeyClassifier.ExampleBareDigits | wtforms_dynamic_fields/wtforms_dynamic_fields.py:128-138 | key `7` with only `""` registered is member 7 of `""` |
| KeyClassifier.ExampleLongName | tests/test_wtforms_dynamic_fields.py:184-222 | `yet_another_34_long_2_name_10_1` is member 1 of `yet_another_34_long_2_name_10` |
| Placeholder.IdentRun | wtforms_dynamic_fields/wtforms_dynamic_fields.py:112 | the run is the longest prefix made of identifier characters |
| Placeholder.IdentRunOf | wtforms_dynamic_fields/wtforms_dynamic_fields.py:112 | the run ends exactly at the first position that is not an identifier character |
| Placeholder.MatchAt | wtforms_dynamic_fields/wtforms_dynamic_fields.py:112 | no contract of its own: MatchAtIff states when a token starts at a position |
| Placeholder.MatchAtIff | wtforms_dynamic_fields/wtforms_dynamic_fields.py:112 | a token starts at i exactly when s[i] is `%` and a later `%` closes a run of identifier characters |
| Placeholder.Rewrite | wtforms_dynamic_fields/wtforms_dynamic_fields.py:165-166 | no contract of its own: RewriteIsFill, RewriteUnchangedIff, RewritePlain and RewriteToken state what the scanner returns |
| Placeholder.RewriteUnchangedIff | wtforms_dynamic_fields/wtforms_dynamic_fields.py:162-171 | the scanner changes a string exactly when some position starts a `%ident%` token |
| Placeholder.RewriteNoMatch | wtforms_dynamic_fields/wtforms_dynamic_fields.py:162-171 | a string with no token is returned unchanged |
| Placeholder.RewriteMatchChanges | wtforms_dynamic_fields/wtforms_dynamic_fields.py:162-171 | a string with a token is changed |
| Placeholder.RewritePlain | wtforms_dynamic_fields/wtforms_dynamic_fields.py:162-171 | text without a marker is copied unchanged in front of the rewrite of what follows |
| Placeholder.RewriteToken | wtforms_dynamic_fields/wtforms_dynamic_fields.py:162-171 | a leading token `%ident%` becomes `ident_n`, followed by the rewrite of the rest |
| Placeholder.RewriteTwoTokens | wtforms_dynamic_fields/wtforms_dynamic_fields.py:162-171 | both tokens of a two-token message take the set number, with the text around them kept |
| Placeholder.RewriteNoTokenStart | wtforms_dynamic_fields/wtforms_dynamic_fields.py:162-171 | a string in which no marker is followed by an identifier character or a second marker is unchanged |
| Placeholder.UnparseParse | wtforms_dynamic_fields/wtforms_dynamic_fields.py:112 | the parse into characters and tokens writes back exactly the declared string |
| Placeholder.RewriteIsFill | wtforms_dynamic_fields/wtforms_dynamic_fields.py:162-171 | the rewrite for set n is the set-independent parse with n filled after each token |
| Placeholder.ExampleTwoTokens | tests/test_wtforms_dynamic_fields.py:157-182 | `Please fill in %telephone% or %pager%.` becomes `Please fill in telephone_n or pager_n.` for every set n |
| Placeholder.ExampleFormatSpecifiers | tests/test_wtforms_dynamic_fields_validators.py:196-217 | `%(min)s to %(max)s.` is unchanged in every set |
| Assembly.FieldFor | wtforms_dynamic_fields/wtforms_dynamic_fields.py:196-204 | the field is named by the literal key, has the template's label, type and own arguments, and one validator per registration, in order, each bound with its bag resolved for the key's set |
| Assembly.Step | wtforms_dynamic_fields/wtforms_dynamic_fields.py:117-204 | a key the form already has changes nothing; otherwise the fields so far are kept and at most one field, named by the key, is appended |
| Assembly.StepNames | wtforms_dynamic_fields/wtforms_dynamic_fields.py:117-143 | one step adds the key's name exactly when the form does not have it yet and the key is accepted against the static fields alone |
| Assembly.StepSetMember | wtforms_dynamic_fields/wtforms_dynamic_fields.py:128-204 | a new `c_n` with c registered and n all digits appends c's field for the key, bound for set n |
| Assembly.Assemble | wtforms_dynamic_fields/wtforms_dynamic_fields.py:117-204 | at most one field is attached per submitted pair |
| Assembly.AssembleSound | wtforms_dynamic_fields/wtforms_dynamic_fields.py:117-204 | no attached field shares its name with a static field or another attached field, and each is the field its own key's classification yields |
| Assembly.AssembleNames | wtforms_dynamic_fields/wtforms_dynamic_fields.py:117-143 | a name is attached exactly when it was submitted and is accepted against the static fields; skipped and dropped keys do not stop later ones |
| Assembly.AssembleExtends | wtforms_dynamic_fields/wtforms_dynamic_fields.py:117 | more pairs never remove or reorder fields already attached |
| Assembly.AssemblePrefix | wtforms_dynamic_fields/wtforms_dynamic_fields.py:117 | the pass over a prefix of the pairs attaches a prefix of the fields |
| Assembly.AssembleOrigin | wtforms_dynamic_fields/wtforms_dynamic_fields.py:122-138 | every attached field was submitted under its own name, and that name is its registered canonical name or `name_number` of it (or a bare digit key under `""`) |
| Assembly.AssembleRepeatedKey | wtforms_dynamic_fields/wtforms_dynamic_fields.py:117-120 | a key submitted again attaches nothing new |
| Assembly.FirstValidatorsTwice | wtforms_dynamic_fields/wtforms_dynamic_fields.py:201-204 | the index of the first field whose construction passes `validators` twice, with every earlier field built without that clash |
| Assembly.AssembleRefusedAt | wtforms_dynamic_fields/wtforms_dynamic_fields.py:201-204 | when the first refused field is attached for pair i, the whole pass is refused at that field |
| Assembly.AssembleWithoutValidatorsKeyword | wtforms_dynamic_fields/wtforms_dynamic_fields.py:201-204 | when no template keeps `validators` among its own keyword arguments, no attached field is refused |
| Assembly.AssembleAllStatic | wtforms_dynamic_fields/wtforms_dynamic_fields.py:118-120 | pairs whose keys are all form fields attach nothing |
| Assembly.AssembleStaticThenCanonical | wtforms_dynamic_fields/wtforms_dynamic_fields.py:117-204 | static keys then a registered name attach only that name's field, with validators bound outside any set |
| Assembly.AssembleOneSet | wtforms_dynamic_fields/wtforms_dynamic_fields.py:128-204 | a lone set member `c_n` gets c's field, bound for set n |
| Assembly.AssembleTwoSets | wtforms_dynamic_fields/wtforms_dynamic_fields.py:128-204 | two set members of one field each get their own field, in order, with validators bound for their own set number |

## Left out

- `iteritems` is a Python 2/3 compatibility shim and is not modelled. The
  submitted pairs are a sequence in iteration order.
- The `isinstance(form, FormMeta)` check is a boolean on `FormClass`. Python's
  type system is not modelled.
- WTForms itself is not part of this model. Field classes and validator
  factories are opaque identifiers. A constructed validator is the record of
  its factory and resolved arguments. A constructed field is the record of
  its key, label, type, arguments and validators. Validation, error messages
  and rendering are left out.
- The two instantiations `F()` and `F(post)` are recorded as a binding on
  the result. They are not performed.
- Digits are ASCII `0`-`9`. Python's `str.isdigit` also accepts other Unicode
  digits, which are left out.
- The regular expression is modelled by a hand-written scanner. Python's
  `re` engine is not modelled.
- A validator whose `__name__` is `label`, `type`, `args`, `kwargs` or
  `validators` would overwrite that entry of the field's dictionary. Bags
  are a separate map in the model, so this collision is not captured.
- An absent `args` or `kwargs` entry in a bag is modelled as an empty list
  or dictionary. Calling a factory with no arguments is the same either way.
- Outside a set, the stored argument tuple and dictionary are passed on
  without copying. Values are immutable here, so sharing them is not
  modelled.
- Keyword argument order is not modelled: dictionaries are maps.
- The first `add_validator` call on a field creates the empty list and
  then calls itself again. The model performs both in one step.
- Field names that start with `_` or clash with form attributes are not
  distinguished from other names. The form class handles them specially,
  and that handling is not modelled.
- AttachFields: only the keyword clash on `validators` is modelled. A
  non-empty template `args` is passed positionally after the label, so for
  WTForms' own field classes its first element also lands on the
  `validators` parameter. Then `process` fails when the form is next
  instantiated, not at the call itself, which only records the arguments.
  Whether this happens depends on the signature of the field class, which
  is not part of this model.
