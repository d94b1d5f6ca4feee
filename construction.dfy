/**
 * Building a model instance from keyword arguments, end to end: the before
 * hook on the raw dict, the framework filling in defaults, then the after
 * hook on the attributes. The framework's own type coercion is not part of
 * this model; only its handling of absent fields is.
 */
module Construction {
  import opened Values
  import opened Sanitizer
  import opened Introspection
  import opened BaseModel

  /**
   * The framework's defaulting: each field absent from the input takes its
   * default; an absent field without one fails.
   */
  function ApplyDefaults(fs: seq<FieldDecl>, d: map<string, Value>): (r: Result<map<string, Value>>)
    requires UniqueNames(fs)
    decreases |fs|
    ensures r.Ok? ==> forall k :: k in d ==> k in r.value && r.value[k] == d[k]
    ensures r.Ok? ==> forall f :: f in fs ==> f.name in r.value
    ensures r.Ok? ==> forall k :: k in r.value && k !in d ==>
      exists f :: f in fs && f.name == k && f.info.default == Some(r.value[k])
    ensures r.Err? <==> exists f :: f in fs && f.name !in d && f.info.default.None?
  {
    if |fs| == 0 then Ok(d)
    else
      var f := fs[0];
      if f.name in d then ApplyDefaults(fs[1..], d)
      else match f.info.default
        case None => Err("Field required")
        case Some(v) => ApplyDefaults(fs[1..], d[f.name := v])
  }

  /**
   * `Model(**input)`: before hook, defaults, after hook; the first error ends
   * it. A built instance has every declared field, keeps every key it was
   * given, and gains no key but a declared field's.
   */
  function Construct(fs: seq<FieldDecl>, input: map<string, Value>): (r: Result<map<string, Value>>)
    requires UniqueNames(fs)
    ensures r.Ok? ==> forall f :: f in fs ==> f.name in r.value
    ensures r.Ok? ==> input.Keys <= r.value.Keys
    ensures r.Ok? ==> forall k :: k in r.value && k !in input ==> exists f :: f in fs && f.name == k
  {
    var bs := EnumBindings(fs);
    var pre := SanitizeFields(bs, input);
    if pre.error.Some? then Err(pre.error.value)
    else match ApplyDefaults(fs, pre.data)
      case Err(msg) => Err(msg)
      case Ok(full) =>
        var post := SanitizeFields(bs, full);
        if post.error.Some? then Err(post.error.value) else Ok(post.data)
  }

  /** Every default of an enum field only holds members of the field's own enumeration. */
  ghost predicate ConsistentDefaults(fs: seq<FieldDecl>)
  {
    forall b :: b in EnumBindings(fs) && b.info.default.Some? ==> Consistent(b.info.default.value, b.e)
  }

  ghost predicate WellFormedFields(fs: seq<FieldDecl>)
  {
    forall i :: 0 <= i < |fs| ==> forall j :: 0 <= j < |fs[i].markers| ==>
      MarkerEnum(fs[i].markers[j]).Some? ==> WellFormed(MarkerEnum(fs[i].markers[j]).value)
  }

  lemma BindingsWellFormed(fs: seq<FieldDecl>)
    requires WellFormedFields(fs)
    ensures WellFormedBindings(EnumBindings(fs))
  {
    forall b | b in EnumBindings(fs) ensures WellFormed(b.e) {
      EnumBindingsMembers(fs, b);
      var i :| 0 <= i < |fs| && fs[i].name == b.name && fs[i].info == b.info && LastEnum(fs[i].markers) == Some(b.e);
      LastEnumWins(fs[i].markers);
    }
  }

  /** After defaulting, every enum field holds a sanitised value or a default of its own enumeration. */
  lemma FilledConsistent(fs: seq<FieldDecl>, pre: map<string, Value>, full: map<string, Value>)
    requires UniqueNames(fs) && ConsistentDefaults(fs)
    requires forall b :: b in EnumBindings(fs) && b.name in pre ==> Canonical(pre[b.name])
    requires ApplyDefaults(fs, pre) == Ok(full)
    ensures ConsistentEntries(EnumBindings(fs), full)
  {
    forall b | b in EnumBindings(fs) && b.name in full ensures Consistent(full[b.name], b.e) {
      EnumBindingsMembers(fs, b);
      if b.name in pre {
        CanonicalConsistent(full[b.name], b.e);
      } else {
        var f :| f in fs && f.name == b.name && f.info.default == Some(full[b.name]);
        var i :| 0 <= i < |fs| && fs[i].name == b.name && fs[i].info == b.info && LastEnum(fs[i].markers) == Some(b.e);
        var j :| 0 <= j < |fs| && fs[j] == f;
        assert i == j;
      }
    }
  }

  /**
   * A constructed instance has every field, and each enum field holds its
   * sanitised form: sanitising it again gives it back. This covers defaults,
   * which never pass through the before hook.
   */
  lemma ConstructSanitizes(fs: seq<FieldDecl>, input: map<string, Value>)
    requires UniqueNames(fs) && WellFormedFields(fs) && ConsistentDefaults(fs)
    requires ConsistentEntries(EnumBindings(fs), input)
    ensures Construct(fs, input).Ok? ==>
      var out := Construct(fs, input).value;
      && (forall f :: f in fs ==> f.name in out)
      && (forall b :: b in EnumBindings(fs) ==> b.name in out && Sanitize(out[b.name], b.e) == Ok(out[b.name]))
  {
    var bs := EnumBindings(fs);
    var pre := SanitizeFields(bs, input);
    EnumBindingsUnique(fs);
    BindingsWellFormed(fs);
    if Construct(fs, input).Ok? {
      SanitizeFieldsResult(bs, input);
      var full := ApplyDefaults(fs, pre.data).value;
      FilledConsistent(fs, pre.data, full);
      SanitizeFieldsResult(bs, full);
      var out := SanitizeFields(bs, full).data;
      assert out == Construct(fs, input).value;
      forall b | b in bs ensures b.name in out && Sanitize(out[b.name], b.e) == Ok(out[b.name]) {
        EnumBindingsMembers(fs, b);
        SanitizeIdempotent(full[b.name], b.e);
      }
    }
  }

  /**
   * Which value each key of a constructed instance holds: an enum field that
   * was given holds the given value sanitised; one that was absent holds its
   * default sanitised (and so has a default); any other given key keeps its
   * value.
   */
  lemma ConstructValues(fs: seq<FieldDecl>, input: map<string, Value>)
    requires UniqueNames(fs) && WellFormedFields(fs) && ConsistentDefaults(fs)
    requires ConsistentEntries(EnumBindings(fs), input)
    ensures Construct(fs, input).Ok? ==>
      var out := Construct(fs, input).value;
      && (forall b :: b in EnumBindings(fs) && b.name in input ==> Sanitize(input[b.name], b.e) == Ok(out[b.name]))
      && (forall b :: b in EnumBindings(fs) && b.name !in input ==>
            b.name in out && b.info.default.Some? && Sanitize(b.info.default.value, b.e) == Ok(out[b.name]))
      && (forall k :: k in input && k !in BindingNames(EnumBindings(fs)) ==> out[k] == input[k])
  {
    var bs := EnumBindings(fs);
    var pre := SanitizeFields(bs, input);
    EnumBindingsUnique(fs);
    BindingsWellFormed(fs);
    if Construct(fs, input).Ok? {
      SanitizeFieldsResult(bs, input);
      var full := ApplyDefaults(fs, pre.data).value;
      FilledConsistent(fs, pre.data, full);
      SanitizeFieldsResult(bs, full);
      var out := SanitizeFields(bs, full).data;
      assert out == Construct(fs, input).value;
      forall b | b in bs && b.name in input ensures Sanitize(input[b.name], b.e) == Ok(out[b.name]) {
        SanitizeIdempotent(input[b.name], b.e);
      }
      forall b | b in bs && b.name !in input
        ensures b.name in out && b.info.default.Some? && Sanitize(b.info.default.value, b.e) == Ok(out[b.name])
      {
        EnumBindingsMembers(fs, b);
        var f :| f in fs && f.name == b.name && f.info.default == Some(full[b.name]);
        var i :| 0 <= i < |fs| && fs[i].name == b.name && fs[i].info == b.info && LastEnum(fs[i].markers) == Some(b.e);
        var j :| 0 <= j < |fs| && fs[j] == f;
        assert i == j;
      }
    }
  }

  // ---------------------------------------------------------------------
  // The model of the repository's tests.
  // ---------------------------------------------------------------------

  const Color := IntEnum("Color", [("RED", 1), ("BLUE", 2), ("GREEN", 3)])

  /** `ColorItem`: a required `color`, a `default` of RED and an `empty` defaulting to None. */
  function ColorItem(color: FieldInfo, dflt: FieldInfo, empty: FieldInfo): seq<FieldDecl>
  {
    [ FieldDecl("color", color, [EnumClass(Color)]),
      FieldDecl("default", dflt, [OtherMeta, EnumClass(Color)]),
      FieldDecl("empty", empty, [EnumClass(Color)]) ]
  }

  lemma ColorDescription()
    ensures EnumValuesDescription(Color) == "Enum values: RED, BLUE, GREEN"
  {
    assert Names(Color) == ["RED", "BLUE", "GREEN"];
  }

  lemma ColorWellFormed()
    ensures WellFormed(Color)
  {
  }

  lemma ColorBindings(color: FieldInfo, dflt: FieldInfo, empty: FieldInfo)
    ensures UniqueNames(ColorItem(color, dflt, empty))
    ensures EnumBindings(ColorItem(color, dflt, empty)) ==
      [Binding("color", color, Color), Binding("default", dflt, Color), Binding("empty", empty, Color)]
  {
    var fs := ColorItem(color, dflt, empty);
    assert LastEnum([OtherMeta, EnumClass(Color)]) == Some(Color);
    assert EnumBindings(fs[2..]) == [Binding("empty", empty, Color)];
    assert EnumBindings(fs[1..]) == [Binding("default", dflt, Color), Binding("empty", empty, Color)];
  }

  /** The before hook on `color=x`, where `x` sanitises to "BLUE". */
  lemma {:induction false} ColorItemBefore(bs: seq<Binding>, x: Value)
    requires |bs| == 3 && bs[0].name == "color" && bs[1].name == "default" && bs[2].name == "empty"
    requires bs[0].e == Color && bs[1].e == Color && bs[2].e == Color
    requires Sanitize(x, Color) == Ok(Str("BLUE"))
    ensures SanitizeFields(bs, map["color" := x]) == Outcome(map["color" := Str("BLUE")], None)
  {
    var blue := map["color" := Str("BLUE")];
    assert Sanitize(NoneValue, Color) == Ok(NoneValue);
    assert SanitizeFields(bs[3..], blue) == Outcome(blue, None);
    assert bs[2..][1..] == bs[3..];
    assert SanitizeFields(bs[2..], blue) == Outcome(blue, None);
    assert bs[1..][1..] == bs[2..];
    assert SanitizeFields(bs[1..], blue) == Outcome(blue, None);
    assert map["color" := x]["color" := Str("BLUE")] == blue;
  }

  /** The framework fills `default` with RED and `empty` with None. */
  lemma ColorItemDefaults(color: FieldInfo, dflt: FieldInfo, empty: FieldInfo)
    requires color.default == None
    requires dflt.default == Some(Member("Color", "RED", 1))
    requires empty.default == Some(NoneValue)
    ensures UniqueNames(ColorItem(color, dflt, empty))
    ensures ApplyDefaults(ColorItem(color, dflt, empty), map["color" := Str("BLUE")]) ==
      Ok(map["color" := Str("BLUE"), "default" := Member("Color", "RED", 1), "empty" := NoneValue])
  {
    var fs := ColorItem(color, dflt, empty);
    var blue := map["color" := Str("BLUE")];
    var withRed := blue["default" := Member("Color", "RED", 1)];
    var full := withRed["empty" := NoneValue];
    assert fs[2..][1..] == [];
    assert ApplyDefaults(fs[2..], withRed) == Ok(full);
    assert fs[1..][1..] == fs[2..];
    assert ApplyDefaults(fs[1..], blue) == Ok(full);
  }

  /** The after hook turns the RED default into "RED" and keeps the rest. */
  lemma {:induction false} ColorItemAfter(bs: seq<Binding>)
    requires |bs| == 3 && bs[0].name == "color" && bs[1].name == "default" && bs[2].name == "empty"
    requires bs[0].e == Color && bs[1].e == Color && bs[2].e == Color
    ensures SanitizeFields(bs, map["color" := Str("BLUE"), "default" := Member("Color", "RED", 1), "empty" := NoneValue])
      == Outcome(map["color" := Str("BLUE"), "default" := Str("RED"), "empty" := NoneValue], None)
  {
    var full := map["color" := Str("BLUE"), "default" := Member("Color", "RED", 1), "empty" := NoneValue];
    var out := map["color" := Str("BLUE"), "default" := Str("RED"), "empty" := NoneValue];
    assert MemberByName(Color.members, "BLUE") == Some(("BLUE", 2));
    assert Sanitize(Str("BLUE"), Color) == Ok(Str("BLUE"));
    assert Sanitize(Member("Color", "RED", 1), Color) == Ok(Str("RED"));
    assert Sanitize(NoneValue, Color) == Ok(NoneValue);
    assert SanitizeFields(bs[3..], out) == Outcome(out, None);
    assert bs[2..][1..] == bs[3..];
    assert SanitizeFields(bs[2..], out) == Outcome(out, None);
    assert bs[1..][1..] == bs[2..];
    assert full["default" := Str("RED")] == out;
    assert SanitizeFields(bs[1..], full) == Outcome(out, None);
    assert full["color" := Str("BLUE")] == full;
  }

  /**
   * Any input that sanitises to "BLUE" builds the same `ColorItem`: the RED
   * default becomes "RED" and the None default stays None.
   */
  lemma ColorItemFrom(color: FieldInfo, dflt: FieldInfo, empty: FieldInfo, x: Value)
    requires color.default == None
    requires dflt.default == Some(Member("Color", "RED", 1))
    requires empty.default == Some(NoneValue)
    requires Sanitize(x, Color) == Ok(Str("BLUE"))
    ensures UniqueNames(ColorItem(color, dflt, empty))
    ensures Construct(ColorItem(color, dflt, empty), map["color" := x]) ==
      Ok(map["color" := Str("BLUE"), "default" := Str("RED"), "empty" := NoneValue])
  {
    ColorBindings(color, dflt, empty);
    var bs := EnumBindings(ColorItem(color, dflt, empty));
    ColorItemBefore(bs, x);
    ColorItemDefaults(color, dflt, empty);
    ColorItemAfter(bs);
  }

  /** Color's members as the error message lists them. */
  lemma ColorChoices()
    ensures Choices(Color) == ["RED (1)", "BLUE (2)", "GREEN (3)"]
  {
    assert Decimal(1) == "1" && Decimal(2) == "2" && Decimal(3) == "3";
    var cs := Choices(Color);
    assert cs[0] == "RED (1)";
    assert cs[1] == "BLUE (2)";
    assert cs[2] == "GREEN (3)";
  }

  lemma JoinThree(sep: string, a: string, b: string, c: string)
    ensures Join(sep, [a, b, c]) == a + sep + b + sep + c
  {
    assert [a, b, c][1..] == [b, c];
    assert [b, c][1..] == [c];
    assert Join(sep, [b, c]) == b + sep + c;
    assert a + sep + (b + sep + c) == a + sep + b + sep + c;
  }

  /** "YELLOW" names no member of Color, so sanitising it fails with the message that lists them. */
  lemma ColorYellowMessage()
    ensures Sanitize(Str("YELLOW"), Color) ==
      Err("Invalid enum value: " + "YELLOW" + ". Must be one of: " + "RED (1)" + ", " + "BLUE (2)" + ", " + "GREEN (3)")
  {
    ColorChoices();
    JoinThree(", ", "RED (1)", "BLUE (2)", "GREEN (3)");
    assert MemberByName(Color.members, "YELLOW") == None;
    assert Sanitize(Str("YELLOW"), Color) == Err(InvalidEnumValueMsg(Str("YELLOW"), Color));
    assert Display(Str("YELLOW")) == "YELLOW";
  }

  /** Constructing a `ColorItem` with `color="YELLOW"` fails with that message. */
  lemma ColorItemYellow(color: FieldInfo, dflt: FieldInfo, empty: FieldInfo)
    ensures UniqueNames(ColorItem(color, dflt, empty))
    ensures Construct(ColorItem(color, dflt, empty), map["color" := Str("YELLOW")]) ==
      Err("Invalid enum value: " + "YELLOW" + ". Must be one of: " + "RED (1)" + ", " + "BLUE (2)" + ", " + "GREEN (3)")
  {
    ColorBindings(color, dflt, empty);
    ColorYellowMessage();
    var bs := EnumBindings(ColorItem(color, dflt, empty));
    assert StepField(bs[0], map["color" := Str("YELLOW")]).Err?;
  }

  /**
   * BLUE given as a name, as its value or as the member builds a `ColorItem`
   * whose `color` is "BLUE", whose RED default is "RED" and whose None
   * default is None.
   */
  lemma ColorItemBlue(color: FieldInfo, dflt: FieldInfo, empty: FieldInfo)
    requires color.default == None
    requires dflt.default == Some(Member("Color", "RED", 1))
    requires empty.default == Some(NoneValue)
    ensures UniqueNames(ColorItem(color, dflt, empty))
    ensures var expected := Ok(map["color" := Str("BLUE"), "default" := Str("RED"), "empty" := NoneValue]);
      && Construct(ColorItem(color, dflt, empty), map["color" := Str("BLUE")]) == expected
      && Construct(ColorItem(color, dflt, empty), map["color" := Int(2)]) == expected
      && Construct(ColorItem(color, dflt, empty), map["color" := Member("Color", "BLUE", 2)]) == expected
  {
    ColorWellFormed();
    MemberForms(Color, 1);
    ColorItemFrom(color, dflt, empty, Str("BLUE"));
    ColorItemFrom(color, dflt, empty, Int(2));
    ColorItemFrom(color, dflt, empty, Member("Color", "BLUE", 2));
  }

  /**
   * Lists and tuples of members become lists and tuples of names; the tuple
   * ("BLUE", 1) sanitises to ("BLUE", "RED"), so rejecting it for a plain
   * `str` field is the framework's type check, not the sanitiser's.
   */
  lemma ColorContainers()
    ensures Sanitize(List([Member("Color", "RED", 1), Member("Color", "GREEN", 3)]), Color)
      == Ok(List([Str("RED"), Str("GREEN")]))
    ensures Sanitize(Tuple([Member("Color", "RED", 1), Member("Color", "GREEN", 3)]), Color)
      == Ok(Tuple([Str("RED"), Str("GREEN")]))
    ensures Sanitize(Tuple([Str("BLUE"), Int(1)]), Color) == Ok(Tuple([Str("BLUE"), Str("RED")]))
  {
    var red, green := Member("Color", "RED", 1), Member("Color", "GREEN", 3);
    assert Sanitize(red, Color) == Ok(Str("RED"));
    assert Sanitize(green, Color) == Ok(Str("GREEN"));
    assert SanitizeEach([], Color) == Ok([]);
    assert [green][1..] == [];
    assert [green][0] == green;
    assert [Str("GREEN")] + [] == [Str("GREEN")];
    assert SanitizeEach([green], Color) == Ok([Str("GREEN")]);
    assert [red, green][1..] == [green];
    assert [red, green][0] == red;
    assert [Str("RED")] + [Str("GREEN")] == [Str("RED"), Str("GREEN")];
    assert SanitizeEach([red, green], Color) == Ok([Str("RED"), Str("GREEN")]);
    assert MemberByName(Color.members, "BLUE") == Some(("BLUE", 2));
    assert Sanitize(Str("BLUE"), Color) == Ok(Str("BLUE"));
    assert Sanitize(Int(1), Color) == Ok(Str("RED"));
    assert [Int(1)][1..] == [];
    assert [Int(1)][0] == Int(1);
    assert [Str("RED")] + [] == [Str("RED")];
    assert SanitizeEach([Int(1)], Color) == Ok([Str("RED")]);
    assert [Str("BLUE"), Int(1)][1..] == [Int(1)];
    assert [Str("BLUE"), Int(1)][0] == Str("BLUE");
    assert [Str("BLUE")] + [Str("RED")] == [Str("BLUE"), Str("RED")];
    assert SanitizeEach([Str("BLUE"), Int(1)], Color) == Ok([Str("BLUE"), Str("RED")]);
  }
}
