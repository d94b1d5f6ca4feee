/**
 * The model base class: the one-time description patch run when a model
 * class is created, the before hook that rewrites the raw input dict in
 * place, and the after hook that rewrites the constructed instance's
 * attributes. Both hooks run the same loop over the enum fields, specified
 * once by `SanitizeFields`.
 */
module BaseModel {
  import opened Values
  import opened Sanitizer
  import opened Introspection

  /** The description written into an enum field that has none. */
  function EnumValuesDescription(e: IntEnum): string
  {
    "Enum values: " + Join(", ", Names(e))
  }

  /** An enumeration without members is described by the bare prefix. */
  lemma EnumValuesDescriptionEmpty(e: IntEnum)
    ensures |e.members| == 0 ==> EnumValuesDescription(e) == "Enum values: "
  {
  }

  /**
   * The description is "Enum values: " followed by every member name in
   * declaration order: name `k` sits after the earlier ones, each followed by
   * ", ", and the last one ends the description.
   */
  lemma EnumValuesDescriptionLists(e: IntEnum, k: nat)
    requires k < |e.members|
    ensures var r := EnumValuesDescription(e);
      var n := e.members[k].0;
      var o := 13 + JoinOffset(", ", Names(e), k);
      && r[..13] == "Enum values: "
      && o + |n| <= |r| && r[o..o + |n|] == n
      && (k + 1 < |e.members| ==> o + |n| + 2 <= |r| && r[o + |n|..o + |n| + 2] == ", ")
      && (k + 1 == |e.members| ==> |r| == o + |n|)
  {
    JoinAfter("Enum values: ", ", ", Names(e), k);
  }

  /** A field's description after the patch: filled in only for an enum field that has none. */
  function PatchedDescription(d: string, e: Option<IntEnum>): string
  {
    if e.Some? && d == "" then EnumValuesDescription(e.value) else d
  }

  /**
   * The patch only fills what is empty: an existing description is kept, an
   * empty one of an enum field becomes the list of names, and patching again
   * changes nothing.
   */
  lemma PatchFillsOnlyEmpty(d: string, e: Option<IntEnum>)
    ensures d != "" || e.None? ==> PatchedDescription(d, e) == d
    ensures d == "" && e.Some? ==> PatchedDescription(d, e) == "Enum values: " + Join(", ", Names(e.value))
    ensures PatchedDescription(PatchedDescription(d, e), e) == PatchedDescription(d, e)
  {
  }

  /** No two fields share one info object, as pydantic creates one per field. */
  ghost predicate DistinctInfos(fs: seq<FieldDecl>)
  {
    forall i, j :: 0 <= i < j < |fs| ==> fs[i].info != fs[j].info
  }

  /** The outcome of the hooks' loop: the dict as it is left, and the error raised, if any. */
  datatype Outcome = Outcome(data: map<string, Value>, error: Option<string>)

  /**
   * One pass of the hooks' loop for binding `b`: read the field (an absent
   * key reads as None), sanitise it, and write the result back only if it
   * is truthy.
   */
  function StepField(b: Binding, d: map<string, Value>): (r: Result<map<string, Value>>)
    ensures r.Err? <==> b.name in d && Sanitize(d[b.name], b.e).Err?
    ensures r.Err? ==> r.error == InvalidEnumValueMsg(d[b.name], b.e)
    ensures r.Ok? ==> r.value.Keys == d.Keys
    ensures r.Ok? ==> forall k :: k in d && k != b.name ==> r.value[k] == d[k]
    ensures r.Ok? && b.name in d ==>
      r.value[b.name] == d[b.name] || Sanitize(d[b.name], b.e) == Ok(r.value[b.name])
  {
    var v := if b.name in d then d[b.name] else NoneValue;
    match Sanitize(v, b.e)
    case Err(msg) => Err(msg)
    case Ok(s) => Ok(if Truthy(s) then d[b.name := s] else d)
  }

  function BindingNames(bs: seq<Binding>): set<string>
  {
    set b | b in bs :: b.name
  }

  /**
   * The whole loop: fields in order, stopping at the first error with the
   * updates made so far. Whether it stops or not, no key is added or
   * removed, and entries that are not enum fields are left alone.
   */
  function SanitizeFields(bs: seq<Binding>, d: map<string, Value>): (o: Outcome)
    decreases |bs|
    ensures o.data.Keys == d.Keys
    ensures forall k :: k in d && k !in BindingNames(bs) ==> o.data[k] == d[k]
  {
    if |bs| == 0 then Outcome(d, None)
    else
      assert BindingNames(bs) == {bs[0].name} + BindingNames(bs[1..]) by {
        assert bs == [bs[0]] + bs[1..];
      }
      match StepField(bs[0], d)
      case Err(msg) => Outcome(d, Some(msg))
      case Ok(d1) => SanitizeFields(bs[1..], d1)
  }

  /** The dict the before hook receives; the hook rewrites it in place. */
  class RawDict {
    var items: map<string, Value>

    constructor (items: map<string, Value>)
      ensures this.items == items
    {
      this.items := items;
    }
  }

  /** Whatever the before hook is given: a dict, or anything else. */
  datatype Payload = DictPayload(dict: RawDict) | NonDict(v: Value)

  /** A model class: its declared fields, in declaration order. */
  class ModelClass {
    const fields: seq<FieldDecl>

    ghost function Infos(): set<FieldInfo>
    {
      set f | f in fields :: f.info
    }

    /**
     * Defining a model class: the framework's class-creation hook runs the
     * description patch once.
     */
    constructor Define(fields: seq<FieldDecl>)
      requires DistinctInfos(fields)
      modifies set f | f in fields :: f.info
      ensures this.fields == fields
      ensures forall i :: 0 <= i < |fields| ==>
        fields[i].info.description == PatchedDescription(old(fields[i].info.description), LastEnum(fields[i].markers))
    {
      this.fields := fields;
      new;
      PatchEnumDescription();
    }

    /** `enum_fields`: the enum bindings of this class, in declaration order. */
    method EnumFields() returns (bs: seq<Binding>)
      ensures bs == EnumBindings(fields)
    {
      bs := [];
      var i := 0;
      while i < |fields|
        invariant 0 <= i <= |fields|
        invariant bs == EnumBindings(fields[..i])
      {
        var f := fields[i];
        var e := FieldEnum(f.markers);
        EnumBindingsAppend(fields[..i], [f]);
        assert fields[..i + 1] == fields[..i] + [f];
        if e.Some? {
          bs := bs + [Binding(f.name, f.info, e.value)];
        }
        i := i + 1;
      }
      assert fields[..i] == fields;
    }

    /**
     * `_patch_enum_description`: every enum field without a description gets
     * "Enum values: " and its enumeration's names; nothing else changes.
     */
    method PatchEnumDescription()
      requires DistinctInfos(fields)
      modifies Infos()
      ensures forall i :: 0 <= i < |fields| ==>
        fields[i].info.description == PatchedDescription(old(fields[i].info.description), LastEnum(fields[i].markers))
    {
      var i := 0;
      while i < |fields|
        invariant 0 <= i <= |fields|
        invariant forall j :: 0 <= j < i ==>
          fields[j].info.description == PatchedDescription(old(fields[j].info.description), LastEnum(fields[j].markers))
        invariant forall j :: i <= j < |fields| ==> fields[j].info.description == old(fields[j].info.description)
      {
        var f := fields[i];
        var e := FieldEnum(f.markers);
        if e.Some? && f.info.description == "" {
          f.info.description := EnumValuesDescription(e.value);
        }
        i := i + 1;
      }
    }

    /**
     * `_validate_enums`, which is also the loop of the before hook: each enum
     * field's entry is sanitised and written back when truthy; an error stops
     * the loop and leaves the updates already made.
     */
    method ValidateEnums(values: RawDict) returns (r: Result<RawDict>)
      modifies values
      ensures values.items == SanitizeFields(EnumBindings(fields), old(values.items)).data
      ensures r == match SanitizeFields(EnumBindings(fields), old(values.items)).error
        case None => Ok(values)
        case Some(msg) => Err(msg)
    {
      var bs := EnumFields();
      var i := 0;
      while i < |bs|
        invariant 0 <= i <= |bs|
        invariant SanitizeFields(bs, old(values.items)) == SanitizeFields(bs[i..], values.items)
      {
        var b := bs[i];
        var value := if b.name in values.items then values.items[b.name] else NoneValue;
        var s := Sanitize(value, b.e);
        if s.Err? {
          return Err(s.error);
        }
        if Truthy(s.value) {
          values.items := values.items[b.name := s.value];
        }
        i := i + 1;
      }
      return Ok(values);
    }

    /** `check_enum_value_before`: anything but a dict passes through; a dict is rewritten in place. */
    method CheckEnumValueBefore(data: Payload) returns (r: Result<Payload>)
      modifies if data.DictPayload? then {data.dict} else {}
      ensures data.NonDict? ==> r == Ok(data)
      ensures data.DictPayload? ==>
        var o := SanitizeFields(EnumBindings(fields), old(data.dict.items));
        && data.dict.items == o.data
        && r == match o.error case None => Ok(data) case Some(msg) => Err(msg)
    {
      if data.NonDict? {
        return Ok(data);
      }
      var res := ValidateEnums(data.dict);
      match res {
        case Ok(_) => r := Ok(data);
        case Err(msg) => r := Err(msg);
      }
    }
  }

  /** A constructed model instance and its attributes. */
  class Instance {
    const cls: ModelClass
    var attrs: map<string, Value>

    constructor (cls: ModelClass, attrs: map<string, Value>)
      ensures this.cls == cls && this.attrs == attrs
    {
      this.cls := cls;
      this.attrs := attrs;
    }

    /**
     * `check_enum_value_after`: every enum attribute is read, sanitised and
     * set again when truthy; this is what turns a default such as a member
     * into its name.
     */
    method CheckEnumValueAfter() returns (r: Result<Instance>)
      requires forall f :: f in cls.fields ==> f.name in attrs
      modifies this
      ensures attrs == SanitizeFields(EnumBindings(cls.fields), old(attrs)).data
      ensures r == match SanitizeFields(EnumBindings(cls.fields), old(attrs)).error
        case None => Ok(this)
        case Some(msg) => Err(msg)
    {
      var bs := cls.EnumFields();
      var i := 0;
      while i < |bs|
        invariant 0 <= i <= |bs|
        invariant forall f :: f in cls.fields ==> f.name in attrs
        invariant SanitizeFields(bs, old(attrs)) == SanitizeFields(bs[i..], attrs)
      {
        var b := bs[i];
        EnumBindingsMembers(cls.fields, b);
        var value := attrs[b.name];
        var s := Sanitize(value, b.e);
        if s.Err? {
          return Err(s.error);
        }
        if Truthy(s.value) {
          attrs := attrs[b.name := s.value];
        }
        i := i + 1;
      }
      return Ok(this);
    }
  }

  // ---------------------------------------------------------------------
  // What the hooks' loop does to a dict, as a whole.
  // ---------------------------------------------------------------------

  /** The values of the enum fields only hold members of their own enumeration. */
  ghost predicate ConsistentEntries(bs: seq<Binding>, d: map<string, Value>)
  {
    forall b :: b in bs && b.name in d ==> Consistent(d[b.name], b.e)
  }

  ghost predicate WellFormedBindings(bs: seq<Binding>)
  {
    forall b :: b in bs ==> WellFormed(b.e)
  }

  /**
   * A sanitised value is written back unless it is falsy, and a falsy one
   * (None, an empty list or tuple) is the value it came from, so skipping the
   * write loses nothing.
   */
  lemma {:induction false} FalsyIsUnchanged(v: Value, e: IntEnum)
    requires WellFormed(e) && Consistent(v, e)
    ensures Sanitize(v, e).Ok? ==> Truthy(Sanitize(v, e).value) || Sanitize(v, e).value == v
  {
    var r := Sanitize(v, e);
    if r.Ok? {
      match v
      case Member(c, n, x) =>
        if c == e.cls {
          var i :| 0 <= i < |e.members| && e.members[i] == (n, x);
        } else {
          var i := IndexOf(e.members, MemberByValue(e.members, x).value);
        }
      case Int(x) =>
        var i := IndexOf(e.members, MemberByValue(e.members, x).value);
      case Str(s) =>
        var i := IndexOf(e.members, MemberByName(e.members, s).value);
      case List(xs) =>
        assert |r.value.items| == |xs|;
        if xs == [] { assert r.value.items == []; }
      case Tuple(xs) =>
        assert |r.value.items| == |xs|;
        if xs == [] { assert r.value.items == []; }
      case _ =>
    }
  }

  /** A step for the first field leaves the entries of the later fields as they were. */
  lemma StepKeepsLater(bs: seq<Binding>, d: map<string, Value>)
    requires UniqueBindingNames(bs) && |bs| > 0 && StepField(bs[0], d).Ok?
    ensures UniqueBindingNames(bs[1..])
    ensures forall j :: 0 < j < |bs| ==>
      (bs[j].name in StepField(bs[0], d).value <==> bs[j].name in d) &&
      (bs[j].name in d ==> StepField(bs[0], d).value[bs[j].name] == d[bs[j].name])
  {
    assert forall j :: 0 < j < |bs| ==> bs[j].name != bs[0].name;
  }

  /** The loop fails exactly when some enum field present in the dict does not sanitise. */
  lemma {:induction false} SanitizeFieldsSucceeds(bs: seq<Binding>, d: map<string, Value>)
    requires UniqueBindingNames(bs)
    ensures SanitizeFields(bs, d).error.None? <==>
      forall b :: b in bs && b.name in d ==> Sanitize(d[b.name], b.e).Ok?
    decreases |bs|
  {
    if |bs| > 0 && StepField(bs[0], d).Ok? {
      var rest, d1 := bs[1..], StepField(bs[0], d).value;
      StepKeepsLater(bs, d);
      SanitizeFieldsSucceeds(rest, d1);
      forall c | c in bs && c.name in d && SanitizeFields(rest, d1).error.None?
        ensures Sanitize(d[c.name], c.e).Ok?
      {
        var j :| 0 <= j < |bs| && bs[j] == c;
        if j > 0 {
          assert rest[j - 1] == c;
        }
      }
      if SanitizeFields(rest, d1).error.Some? {
        var c :| c in rest && c.name in d1 && Sanitize(d1[c.name], c.e).Err?;
        var j :| 0 <= j < |rest| && rest[j] == c;
        assert bs[j + 1] == c;
      }
    }
  }

  /**
   * When the loop fails, the error is the message for the first enum field
   * in declaration order that does not sanitise; every one before it did.
   */
  lemma {:induction false} SanitizeFieldsFirstError(bs: seq<Binding>, d: map<string, Value>)
    requires UniqueBindingNames(bs)
    ensures SanitizeFields(bs, d).error.Some? ==>
      exists k :: 0 <= k < |bs| && bs[k].name in d && Sanitize(d[bs[k].name], bs[k].e).Err? &&
        SanitizeFields(bs, d).error == Some(InvalidEnumValueMsg(d[bs[k].name], bs[k].e)) &&
        forall j :: 0 <= j < k && bs[j].name in d ==> Sanitize(d[bs[j].name], bs[j].e).Ok?
    decreases |bs|
  {
    if |bs| > 0 {
      var step := StepField(bs[0], d);
      if step.Err? {
        assert bs[0].name in d && Sanitize(d[bs[0].name], bs[0].e).Err?;
      } else if SanitizeFields(bs[1..], step.value).error.Some? {
        var rest, d1 := bs[1..], step.value;
        StepKeepsLater(bs, d);
        SanitizeFieldsFirstError(rest, d1);
        var k :| 0 <= k < |rest| && rest[k].name in d1 && Sanitize(d1[rest[k].name], rest[k].e).Err? &&
          SanitizeFields(rest, d1).error == Some(InvalidEnumValueMsg(d1[rest[k].name], rest[k].e)) &&
          forall j :: 0 <= j < k && rest[j].name in d1 ==> Sanitize(d1[rest[j].name], rest[j].e).Ok?;
        assert bs[k + 1] == rest[k];
        forall j | 0 < j < k + 1 && bs[j].name in d ensures Sanitize(d[bs[j].name], bs[j].e).Ok? {
          assert bs[j] == rest[j - 1];
        }
      }
    }
  }

  /**
   * On success the loop keeps the dict's keys (a missing enum field stays
   * missing), leaves every other key's value alone, and replaces each enum
   * field that is present by its sanitised value.
   */
  lemma {:induction false} SanitizeFieldsResult(bs: seq<Binding>, d: map<string, Value>)
    requires UniqueBindingNames(bs) && WellFormedBindings(bs) && ConsistentEntries(bs, d)
    ensures var o := SanitizeFields(bs, d);
      o.error.None? ==>
        && o.data.Keys == d.Keys
        && (forall k :: k in d && k !in BindingNames(bs) ==> o.data[k] == d[k])
        && (forall b :: b in bs && b.name in d ==> Sanitize(d[b.name], b.e) == Ok(o.data[b.name]))
    decreases |bs|
  {
    if |bs| > 0 {
      var b := bs[0];
      var rest := bs[1..];
      var v := if b.name in d then d[b.name] else NoneValue;
      assert forall c :: c in bs <==> c == b || c in rest;
      match Sanitize(v, b.e)
      case Err(msg) =>
      case Ok(s) =>
        var d1 := if Truthy(s) then d[b.name := s] else d;
        forall c | c in rest ensures c.name != b.name {
          var j :| 0 <= j < |rest| && rest[j] == c;
          assert bs[j + 1] == c;
        }
        FalsyIsUnchanged(v, b.e);
        assert Truthy(s) ==> b.name in d;
        assert d1.Keys == d.Keys;
        assert ConsistentEntries(rest, d1) by {
          forall c | c in rest && c.name in d1 ensures Consistent(d1[c.name], c.e) {
            assert d1[c.name] == d[c.name];
          }
        }
        SanitizeFieldsResult(rest, d1);
        var o := SanitizeFields(rest, d1);
        assert SanitizeFields(bs, d) == o;
        if o.error.None? {
          assert b.name !in BindingNames(rest);
          forall k | k in d && k !in BindingNames(bs) ensures o.data[k] == d[k] {
            assert k != b.name && k !in BindingNames(rest);
          }
          forall c | c in bs && c.name in d ensures Sanitize(d[c.name], c.e) == Ok(o.data[c.name]) {
            if c == b {
              assert o.data[b.name] == d1[b.name];
            } else {
              assert c in rest;
              assert d1[c.name] == d[c.name];
            }
          }
        }
    }
  }

  /** A sanitised value contains no members, so it is consistent with any enumeration. */
  lemma {:induction false} CanonicalConsistent(v: Value, e: IntEnum)
    requires Canonical(v)
    ensures Consistent(v, e)
    decreases v
  {
    match v
    case List(xs) =>
      forall i | 0 <= i < |xs| { CanonicalConsistent(xs[i], e); }
    case Tuple(xs) =>
      forall i | 0 <= i < |xs| { CanonicalConsistent(xs[i], e); }
    case _ =>
  }

  /** Running the loop again on what it produced changes nothing and raises nothing. */
  lemma SanitizeFieldsIdempotent(bs: seq<Binding>, d: map<string, Value>)
    requires UniqueBindingNames(bs) && WellFormedBindings(bs) && ConsistentEntries(bs, d)
    ensures SanitizeFields(bs, d).error.None? ==> SanitizeFields(bs, SanitizeFields(bs, d).data) == SanitizeFields(bs, d)
  {
    var o := SanitizeFields(bs, d);
    if o.error.None? {
      SanitizeFieldsResult(bs, d);
      forall b | b in bs && b.name in o.data
        ensures Consistent(o.data[b.name], b.e) && Sanitize(o.data[b.name], b.e) == Ok(o.data[b.name])
      {
        CanonicalConsistent(o.data[b.name], b.e);
        SanitizeIdempotent(d[b.name], b.e);
      }
      SanitizeFieldsSucceeds(bs, o.data);
      SanitizeFieldsResult(bs, o.data);
      var o2 := SanitizeFields(bs, o.data);
      forall k | k in o.data ensures o2.data[k] == o.data[k] {
        if k in BindingNames(bs) {
          var b :| b in bs && b.name == k;
        }
      }
      assert o2.data == o.data;
    }
  }
}
