/**
 * The part of `enum_fields` that reads a field's `Annotated[...]` metadata:
 * which markers designate an enumeration, which one wins, and the ordered
 * list of (field name, field info, enumeration) bindings of a model.
 */
module Introspection {
  import opened Values

  datatype ContainerKind = ListKind | TupleKind

  /** One entry of a field's `Annotated[...]` metadata. */
  datatype Marker =
    | EnumClass(e: IntEnum)                      // an IntEnum class itself
    | Generic(kind: ContainerKind, e: IntEnum)   // list[E, ...] or tuple[E, ...]: E is the first argument
    | OtherMeta                                  // anything else: a Field(...), a plain Enum class, ...

  /** The enumeration a single marker designates, if any. */
  function MarkerEnum(m: Marker): (r: Option<IntEnum>)
    ensures r.Some? <==> !m.OtherMeta?
    ensures r.Some? ==> (m.EnumClass? || m.Generic?) && r.value == m.e
  {
    match m
    case EnumClass(e) => Some(e)
    case Generic(_, e) => Some(e)
    case OtherMeta => None
  }

  /** pydantic's per-field metadata object; an unset description is "". */
  class FieldInfo {
    var description: string
    const default: Option<Value>    // None: the field is required

    constructor (description: string, default: Option<Value>)
      ensures this.description == description && this.default == default
    {
      this.description := description;
      this.default := default;
    }
  }

  /** A declared model field: its name, its info object and its metadata markers. */
  datatype FieldDecl = FieldDecl(name: string, info: FieldInfo, markers: seq<Marker>)

  /** What `enum_fields` yields for one field. */
  datatype Binding = Binding(name: string, info: FieldInfo, e: IntEnum)

  /** The enumeration the marker scan leaves in `enum_cls`: the last marker that designates one. */
  function LastEnum(ms: seq<Marker>): Option<IntEnum>
    decreases |ms|
  {
    if |ms| == 0 then None
    else match MarkerEnum(ms[|ms| - 1])
      case Some(e) => Some(e)
      case None => LastEnum(ms[..|ms| - 1])
  }

  /**
   * A field is bound exactly when one of its markers designates an
   * enumeration, and then to the enumeration of the last such marker.
   */
  lemma {:induction false} LastEnumWins(ms: seq<Marker>)
    ensures LastEnum(ms).Some? <==> exists i :: 0 <= i < |ms| && MarkerEnum(ms[i]).Some?
    ensures LastEnum(ms).Some? ==>
      exists i :: 0 <= i < |ms| && MarkerEnum(ms[i]) == LastEnum(ms) &&
        forall j :: i < j < |ms| ==> MarkerEnum(ms[j]).None?
    decreases |ms|
  {
    if |ms| > 0 {
      var k := |ms| - 1;
      var front := ms[..k];
      LastEnumWins(front);
      assert forall i :: 0 <= i < k ==> front[i] == ms[i];
      if MarkerEnum(ms[k]).None? {
        if LastEnum(ms).Some? {
          var i :| 0 <= i < k && MarkerEnum(front[i]) == LastEnum(front) &&
            forall j :: i < j < k ==> MarkerEnum(front[j]).None?;
          assert MarkerEnum(ms[i]) == LastEnum(ms);
        }
      }
    }
  }

  /** The inner loop of `enum_fields`: scan the markers, each enum marker overwriting the last. */
  method FieldEnum(ms: seq<Marker>) returns (r: Option<IntEnum>)
    ensures r == LastEnum(ms)
  {
    r := None;
    var i := 0;
    while i < |ms|
      invariant 0 <= i <= |ms|
      invariant r == LastEnum(ms[..i])
    {
      assert ms[..i + 1][..i] == ms[..i];
      match ms[i] {
        case EnumClass(e) => r := Some(e);
        case Generic(_, e) => r := Some(e);
        case OtherMeta =>
      }
      i := i + 1;
    }
    assert ms[..i] == ms;
  }

  /** The bindings `enum_fields` yields, in field declaration order. */
  function EnumBindings(fs: seq<FieldDecl>): seq<Binding>
    decreases |fs|
  {
    if |fs| == 0 then []
    else
      (match LastEnum(fs[0].markers)
       case Some(e) => [Binding(fs[0].name, fs[0].info, e)]
       case None => [])
      + EnumBindings(fs[1..])
  }

  /** Introspection distributes over the field list, so it keeps declaration order. */
  lemma {:induction false} EnumBindingsAppend(a: seq<FieldDecl>, b: seq<FieldDecl>)
    ensures EnumBindings(a + b) == EnumBindings(a) + EnumBindings(b)
    decreases |a|
  {
    if |a| > 0 {
      assert (a + b)[1..] == a[1..] + b;
      EnumBindingsAppend(a[1..], b);
    } else {
      assert a + b == b;
    }
  }

  /**
   * A binding is yielded for a field exactly when the field carries an enum
   * marker, with that field's name and info and the winning enumeration;
   * fields without a marker are skipped.
   */
  lemma {:induction false} EnumBindingsMembers(fs: seq<FieldDecl>, b: Binding)
    ensures b in EnumBindings(fs) <==>
      exists i :: 0 <= i < |fs| && fs[i].name == b.name && fs[i].info == b.info && LastEnum(fs[i].markers) == Some(b.e)
    decreases |fs|
  {
    if |fs| > 0 {
      EnumBindingsMembers(fs[1..], b);
      if b !in EnumBindings(fs[1..]) && b in EnumBindings(fs) {
        assert fs[0].name == b.name && fs[0].info == b.info && LastEnum(fs[0].markers) == Some(b.e);
      }
      if exists i :: 1 <= i < |fs| && fs[i].name == b.name && fs[i].info == b.info && LastEnum(fs[i].markers) == Some(b.e) {
        var i :| 1 <= i < |fs| && fs[i].name == b.name && fs[i].info == b.info && LastEnum(fs[i].markers) == Some(b.e);
        assert fs[1..][i - 1] == fs[i];
      }
    }
  }

  /** Field names are unique within a model class. */
  ghost predicate UniqueNames(fs: seq<FieldDecl>)
  {
    forall i, j :: 0 <= i < j < |fs| ==> fs[i].name != fs[j].name
  }

  ghost predicate UniqueBindingNames(bs: seq<Binding>)
  {
    forall i, j :: 0 <= i < j < |bs| ==> bs[i].name != bs[j].name
  }

  /** Since field names are unique, so are the names of the bindings. */
  lemma {:induction false} EnumBindingsUnique(fs: seq<FieldDecl>)
    requires UniqueNames(fs)
    ensures UniqueBindingNames(EnumBindings(fs))
    decreases |fs|
  {
    if |fs| > 0 {
      EnumBindingsUnique(fs[1..]);
      var rest := EnumBindings(fs[1..]);
      forall b | b in rest ensures b.name != fs[0].name {
        EnumBindingsMembers(fs[1..], b);
      }
    }
  }
}
