# pydantic-enum in Dafny

pydantic-enum provides a pydantic model base class. On that class, a string
field annotated with an `IntEnum` marker (`Annotated[str, Color]`,
`Annotated[list[str], list[Color]]`, `Annotated[tuple[str, str], tuple[Color, Color]]`)
accepts any of three forms of a member:

- the member itself;
- its integer value;
- its name.

Every form is stored as the member's name. The model covers the class in
`src/pydantic_enum/base_model.py`:

- `sanitize_enum` with its error message;
- the marker scan of `enum_fields`;
- the description patch run when a model class is defined;
- the before and after validation hooks.

The model is organised in these modules:

- `Values` (`values.dfy`): the raw values a field can receive, `IntEnum`
  classes, Python truthiness, and `str`/`repr` of values. The error message
  embeds the offending value, so these renderings are needed.
- `Sanitizer` (`sanitizer.dfy`): `sanitize_enum` and `invalid_enum_value_msg`.
  It also holds a reference definition of what sanitising means, stated
  independently of the lookup order (`Denotes`, `Resolvable`, `Mirrors`),
  with the lemmas that connect the two.
- `Introspection` (`introspection.dfy`): the metadata markers of a field, the
  last-marker-wins scan, and the ordered `(name, info, enum)` bindings that
  `enum_fields` yields.
- `BaseModel` (`base_model.dfy`): a model class and a model instance, as
  classes with mutable state. `ModelClass.Define` runs the description
  patch. `ValidateEnums` and `CheckEnumValueBefore` rewrite the raw input dict
  in place. `Instance.CheckEnumValueAfter` rewrites the instance's attributes.
  The loop shared by the hooks is specified once, by `SanitizeFields`.
- `Construction` (`construction.dfy`): a model instance built end to end —
  before hook, pydantic filling in defaults, then after hook. It also holds
  the repository's test cases, stated as lemmas about the `ColorItem` model.

Pydantic v1 and v2 register the hooks differently, but both run the same
loop over the enum fields: v1's `_validate_enums` and the dict branch of v2's
`check_enum_value_before`. v2's before hook first passes anything that is not
a dict through untouched (`CheckEnumValueBefore` models that). So one model
covers both. The v2 after hook works on the instance (`getattr`/`setattr`),
and it is modelled that way.

Two facts about the code are worth stating:

- The class-creation hook writes only `description`. It adds no `enum`
  entry to the JSON schema.
- Lists and tuples nest to any depth, so `([1], "RED")` sanitises to
  `(["RED"], "RED")`.

## Model

| member | source | states |
|---|---|---|
| Sanitizer.Sanitize | src/pydantic_enum/base_model.py:23-42 | On failure, the error is the invalid-value message for the outermost value, because each level re-raises with its own value. On success, the result is canonical: names, None, and lists and tuples of those. |
| Sanitizer.SanitizeEach | src/pydantic_enum/base_model.py:34-37 | The comprehension over a container's items. On success, it keeps the length and each item is that item's own sanitised form. It fails exactly when some item fails. |
| Sanitizer.SanitizeSucceedsIff | src/pydantic_enum/base_model.py:23-42 | Sanitising succeeds if and only if every scalar in the value stands for a member and nothing else but None occurs. A scalar stands for a member when it is that member, its value or its name. |
| Sanitizer.SanitizeMatchesReference | src/pydantic_enum/base_model.py:23-42 | For a well-formed enum, `Sanitize(v) == Ok(w)` holds exactly when `w` mirrors `v`: the same container shape, None for None, and each scalar replaced by the name of the member it stands for. |
| Sanitizer.ScalarByValue | src/pydantic_enum/base_model.py:30-31 | An int, or a member of another IntEnum, resolves through its value: the reference equivalence for that case. |
| Sanitizer.SanitizeContainer | src/pydantic_enum/base_model.py:34-37 | A list or tuple meets the reference equivalence when its items do. |
| Sanitizer.MemberForms | src/pydantic_enum/base_model.py:28-33 | A member, its integer value and its name all sanitise to the member's name. |
| Sanitizer.ForeignMember | src/pydantic_enum/base_model.py:30-31 | A member of a different IntEnum is an int. It sanitises to the name of the member with the same value, or fails with the invalid-value message. |
| Sanitizer.ScalarErrors | src/pydantic_enum/base_model.py:38-49 | None passes through unchanged. An unknown int, an unknown name or another type fails with "Invalid enum value: {value}. Must be one of: " followed by every "NAME (value)" in declaration order. |
| Sanitizer.ContainerItemwise | src/pydantic_enum/base_model.py:34-41 | A list stays a list and a tuple stays a tuple, with the same length and order, and each item is sanitised. One bad item fails the whole container with the container's message. |
| Sanitizer.SanitizeIdempotent | src/pydantic_enum/base_model.py:23-42 | Sanitising a sanitised value gives it back, so running both hooks over one value is harmless. |
| Sanitizer.MemberByValue | src/pydantic_enum/base_model.py:31 | `enum_cls(value)`: it finds a member with that value, or reports that no member has it. |
| Sanitizer.MemberByName | src/pydantic_enum/base_model.py:33 | `enum_cls[value]`: it finds a member with that name, or reports that no member has it. |
| Sanitizer.Choices | src/pydantic_enum/base_model.py:48 | One "NAME (value)" entry per member. |
| Sanitizer.InvalidEnumValueMsgNames | src/pydantic_enum/base_model.py:45-49 | `invalid_enum_value_msg` opens with "Invalid enum value: ", then the value as `f"{value}"` prints it, then ". Must be one of: ". With no members, nothing follows. |
| Sanitizer.InvalidEnumValueMsgLists | src/pydantic_enum/base_model.py:45-49 | The rest of the message lists every member as "NAME (value)" in declaration order. Member `k` sits after the earlier entries, each entry but the last is followed by ", ", and the last entry ends the message. |
| Values.JoinAfter | src/pydantic_enum/base_model.py:48 | `sep.join(parts)` after a fixed text lays the parts out in order. Part `k` sits at its offset, a separator follows every part but the last, and the last part ends the text. |
| Introspection.MarkerEnum | src/pydantic_enum/base_model.py:59-62 | A marker designates an enum exactly when it is an IntEnum class or a `list[...]`/`tuple[...]` generic, and then it designates that class or the generic's argument. |
| Introspection.LastEnumWins | src/pydantic_enum/base_model.py:57-64 | A field is bound exactly when one of its markers designates an enum. It is then bound to the enum of the last such marker. |
| Introspection.FieldEnum | src/pydantic_enum/base_model.py:57-62 | The marker loop leaves in `enum_cls` the enum that `LastEnum` specifies. |
| Introspection.EnumBindingsAppend | src/pydantic_enum/base_model.py:56-65 | The yielded bindings distribute over the field list, so they keep declaration order. |
| Introspection.EnumBindingsMembers | src/pydantic_enum/base_model.py:56-65 | A binding is yielded if and only if some field has that name and info, and its markers resolve to that enum. Fields without markers are skipped. |
| Introspection.EnumBindingsUnique | src/pydantic_enum/base_model.py:56-65 | The yielded binding names are unique, because field names are. |
| Introspection.FieldInfo.constructor | src/pydantic_enum/base_model.py:6 | A field info object holds its description and its default. |
| BaseModel.EnumValuesDescriptionEmpty | src/pydantic_enum/base_model.py:73 | An enumeration without members is described as "Enum values: " with nothing after it. |
| BaseModel.EnumValuesDescriptionLists | src/pydantic_enum/base_model.py:73 | The patched description is "Enum values: " followed by every member name in declaration order. Name `k` sits after the earlier names, each name but the last is followed by ", ", and the last name ends the description. |
| BaseModel.PatchFillsOnlyEmpty | src/pydantic_enum/base_model.py:72-73 | An existing description is kept. An empty one on an enum field becomes "Enum values: " followed by the names. Patching twice changes nothing. |
| BaseModel.ModelClass.Define | src/pydantic_enum/base_model.py:81-84 | Defining a model class patches every field's description once. |
| BaseModel.ModelClass.EnumFields | src/pydantic_enum/base_model.py:52-65 | `enum_fields` returns exactly the bindings `EnumBindings` specifies, in declaration order. |
| BaseModel.ModelClass.PatchEnumDescription | src/pydantic_enum/base_model.py:68-73 | Each field's new description is its old one, patched only if the field is bound and the description is empty. |
| BaseModel.ModelClass.ValidateEnums | src/pydantic_enum/base_model.py:136-146 | The dict is left as `SanitizeFields` says. The result is the same dict, or the error raised by the first field that fails. |
| BaseModel.ModelClass.CheckEnumValueBefore | src/pydantic_enum/base_model.py:98-110 | A non-dict passes through untouched. A dict is rewritten in place as `SanitizeFields` says, and the first failure is reported. |
| BaseModel.Instance.constructor | src/pydantic_enum/base_model.py:86-96 | An instance holds its class and its attributes. |
| BaseModel.Instance.CheckEnumValueAfter | src/pydantic_enum/base_model.py:86-96 | The attributes are rewritten as `SanitizeFields` says. The result is the instance itself, or the first error. |
| BaseModel.FalsyIsUnchanged | src/pydantic_enum/base_model.py:93-94 | A sanitised value that `if value:` skips (None, an empty list or tuple) equals the value it came from. So skipping the write-back loses nothing. |
| BaseModel.StepField | src/pydantic_enum/base_model.py:104-108 | One pass of the loop fails exactly when the field is present and does not sanitise, with that value's message. An absent field reads as None and never fails. On success no key is added or removed, other entries are untouched, and the field keeps its value or holds its sanitised form. |
| BaseModel.SanitizeFields | src/pydantic_enum/base_model.py:139-146 | The hooks' loop never adds or removes a key, whether it finishes or stops at an error. It leaves every entry that is not an enum field alone. |
| BaseModel.SanitizeFieldsSucceeds | src/pydantic_enum/base_model.py:103-108 | The hook loop fails if and only if some enum field present in the dict does not sanitise. |
| BaseModel.SanitizeFieldsFirstError | src/pydantic_enum/base_model.py:103-108 | When the loop fails, the error is the invalid-value message of the first enum field, in declaration order, that is present and does not sanitise. Every present enum field before it sanitises. |
| BaseModel.SanitizeFieldsResult | src/pydantic_enum/base_model.py:103-108 | On success the loop changes no key set: a missing field stays missing. It leaves every other key alone, and each present enum field holds its sanitised value. |
| BaseModel.CanonicalConsistent | src/pydantic_enum/base_model.py:23-42 | A sanitised value holds no member, so it is consistent with every enum. |
| BaseModel.SanitizeFieldsIdempotent | src/pydantic_enum/base_model.py:86-110 | Running the hook loop again on its own output changes nothing and raises nothing. |
| Construction.ApplyDefaults | tests/test_base_model.py:17-23 | Pydantic's defaulting keeps every given key and gives every field a value. Each added value is that field's default. It fails exactly when some absent field has no default. |
| Construction.Construct | src/pydantic_enum/base_model.py:86-110 | `Model(**input)`: before hook, defaults, after hook. A built instance has every declared field and keeps every key it was given. Its only other keys are declared fields. |
| Construction.BindingsWellFormed | src/pydantic_enum/base_model.py:56-65 | Every yielded binding's enum is one of the field's own well-formed markers. |
| Construction.FilledConsistent | src/pydantic_enum/base_model.py:86-88 | After defaulting, every enum field holds a sanitised value or a default of its own enum. |
| Construction.ConstructSanitizes | src/pydantic_enum/base_model.py:86-110 | A constructed instance has every field. Each enum field, defaults included, holds a value that sanitising leaves unchanged. |
| Construction.ConstructValues | src/pydantic_enum/base_model.py:86-110 | The value of each key of a constructed instance. A given enum field holds the given value sanitised. An absent enum field has a default and holds that default sanitised. Every other given key keeps its given value. |
| Construction.ColorWellFormed | tests/test_base_model.py:11-14 | `Color` has distinct non-empty names and distinct values. |
| Construction.ColorBindings | tests/test_base_model.py:17-23 | `ColorItem` binds `color`, `default` and `empty` to `Color`, in that order. `default` is bound even though a non-enum marker comes first. |
| Construction.ColorDescription | tests/test_base_model.py:26-31 | The patched description of `Color` is "Enum values: RED, BLUE, GREEN". |
| Construction.ColorItemBefore | tests/test_base_model.py:39-48 | On `color=x` with `x` naming BLUE, the before hook leaves `{"color": "BLUE"}`. The absent fields stay absent. |
| Construction.ColorItemDefaults | tests/test_base_model.py:20-23 | Pydantic fills `default` with `Color.RED` and `empty` with None. |
| Construction.ColorItemAfter | tests/test_base_model.py:34-36 | The after hook turns the RED default into "RED" and leaves None as None. |
| Construction.ColorItemFrom | tests/test_base_model.py:34-40 | Any input that sanitises to "BLUE" builds `{color: "BLUE", default: "RED", empty: None}`. |
| Construction.ColorItemBlue | tests/test_base_model.py:34-48 | `"BLUE"`, `2` and `Color.BLUE` each build that same instance. |
| Construction.ColorChoices | tests/test_base_model.py:11-14 | `Color`'s choices are "RED (1)", "BLUE (2)", "GREEN (3)". |
| Construction.ColorYellowMessage | tests/test_base_model.py:51-53 | `"YELLOW"` fails with "Invalid enum value: YELLOW. Must be one of: RED (1), BLUE (2), GREEN (3)". |
| Construction.ColorItemYellow | tests/test_base_model.py:51-53 | Constructing `ColorItem(color="YELLOW")` fails with that message. |
| Construction.ColorContainers | tests/test_base_model.py:56-78 | `[RED, GREEN]` and `(RED, GREEN)` become `["RED", "GREEN"]` and `("RED", "GREEN")`. `("BLUE", 1)` becomes `("BLUE", "RED")`, so the sanitiser accepts it. |

## Left out

- `src/pydantic_enum/check_version.py` and the choice between the v1 and v2 hook registration: both variants run the same loop, modelled once.
- `get_model_fields` and the reflection through `get_type_hints` and `__metadata__`: each field instead declares its markers explicitly.
- Pydantic's own type coercion and its wrapping of `ValueError` in `ValidationError` are out of scope. An error is the message string the hook raises.
- test_invalid_value: the sanitiser turns `("BLUE", 1)` into `("BLUE", "RED")`. The failure comes from pydantic's `str` type check, which is not part of this model.
- The JSON schema generation, and the FastAPI demo under `example/`.
- `bool` values, which Python treats as ints, are not a separate kind of value.
- A `list[...]` or `tuple[...]` marker whose first argument is not an IntEnum: a marker here always carries an IntEnum.
- IntEnum aliases (two names with one value) and members with an empty name: `WellFormed` excludes them where a lemma needs it.
- Class identity is modelled by the class name: two IntEnum classes with the same name are the same class here.
- Introspection.FieldInfo: an unset description (`None`) and an empty one are both `""`, because `if not field.description` treats them alike.
- Values.StrRepr: `repr` of a string models the choice of quote character and the escaping of backslashes and quotes. It does not model the escaping of non-printable characters.
- Values.Display: a member formats as its integer (`f"{Color.RED}"` is "1"), as `IntEnum.__format__` does. A subclass that overrides `__str__` or `__format__` is not modelled.
- Values.Repr: a float, a dict or another foreign object is kept only as the text Python prints for it.
- BaseModel.Instance.CheckEnumValueAfter: requires that every field is an attribute, which pydantic guarantees after construction.
- Construction.Construct: input keys that name no field are kept in the result. Under pydantic's default configuration (`extra="ignore"`) they are dropped.
- Construction.ApplyDefaults: pydantic's default handling is reduced to "take the default or fail with Field required". Default factories and validation of defaults are not modelled.
