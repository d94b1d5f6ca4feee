/**
 * `sanitize_enum` and `invalid_enum_value_msg`: resolving a raw field value
 * (a member, its integer, its name, or a list or tuple of those) to member
 * names, and the error raised when that is impossible.
 */
module Sanitizer {
  import opened Values

  /** `enum_cls(x)`: the member whose value is `x`, if there is one. */
  function MemberByValue(ms: seq<(string, int)>, x: int): (r: Option<(string, int)>)
    decreases |ms|
    ensures r.Some? ==> r.value in ms && r.value.1 == x
    ensures r.None? ==> forall i :: 0 <= i < |ms| ==> ms[i].1 != x
  {
    if |ms| == 0 then None
    else if ms[0].1 == x then Some(ms[0])
    else MemberByValue(ms[1..], x)
  }

  /** `enum_cls[s]`: the member whose name is `s`, if there is one. */
  function MemberByName(ms: seq<(string, int)>, s: string): (r: Option<(string, int)>)
    decreases |ms|
    ensures r.Some? ==> r.value in ms && r.value.0 == s
    ensures r.None? ==> forall i :: 0 <= i < |ms| ==> ms[i].0 != s
  {
    if |ms| == 0 then None
    else if ms[0].0 == s then Some(ms[0])
    else MemberByName(ms[1..], s)
  }

  /** Each member as "NAME (value)", in declaration order. */
  function Choices(e: IntEnum): (r: seq<string>)
    ensures |r| == |e.members|
  {
    seq(|e.members|, i requires 0 <= i < |e.members| =>
      e.members[i].0 + " (" + Decimal(e.members[i].1) + ")")
  }

  /** The message of the ValueError raised for a value that does not resolve. */
  function InvalidEnumValueMsg(v: Value, e: IntEnum): string
  {
    "Invalid enum value: " + Display(v) + ". Must be one of: " + Join(", ", Choices(e))
  }

  /**
   * The message opens by naming the value as `f"{value}"` prints it, then
   * announces the choices; with no members, nothing follows.
   */
  lemma InvalidEnumValueMsgNames(v: Value, e: IntEnum)
    ensures var r := InvalidEnumValueMsg(v, e);
      && |r| >= 38 + |Display(v)|
      && r[..20] == "Invalid enum value: "
      && r[20..20 + |Display(v)|] == Display(v)
      && r[20 + |Display(v)|..38 + |Display(v)|] == ". Must be one of: "
      && (|e.members| == 0 ==> |r| == 38 + |Display(v)|)
  {
    ConcatSlices("Invalid enum value: ", Display(v), ". Must be one of: ", Join(", ", Choices(e)));
  }

  /**
   * The message lists every member as "NAME (value)" in declaration order:
   * member `k` sits after the earlier ones, each followed by ", ", and the
   * last one ends the message.
   */
  lemma InvalidEnumValueMsgLists(v: Value, e: IntEnum, k: nat)
    requires k < |e.members|
    ensures var r := InvalidEnumValueMsg(v, e);
      var c := e.members[k].0 + " (" + Decimal(e.members[k].1) + ")";
      var o := 38 + |Display(v)| + JoinOffset(", ", Choices(e), k);
      && o + |c| <= |r| && r[o..o + |c|] == c
      && (k + 1 < |e.members| ==> o + |c| + 2 <= |r| && r[o + |c|..o + |c| + 2] == ", ")
      && (k + 1 == |e.members| ==> |r| == o + |c|)
  {
    var head := "Invalid enum value: " + Display(v) + ". Must be one of: ";
    assert |head| == 38 + |Display(v)|;
    assert Choices(e)[k] == e.members[k].0 + " (" + Decimal(e.members[k].1) + ")";
    assert InvalidEnumValueMsg(v, e) == head + Join(", ", Choices(e));
    JoinAfter(head, ", ", Choices(e), k);
  }

  /** The shapes a sanitised value can take: names, None, and lists and tuples of those. */
  ghost predicate Canonical(v: Value)
    decreases v
  {
    match v
    case Str(_) => true
    case NoneValue => true
    case List(xs) => forall i :: 0 <= i < |xs| ==> Canonical(xs[i])
    case Tuple(xs) => forall i :: 0 <= i < |xs| ==> Canonical(xs[i])
    case _ => false
  }

  /**
   * `sanitize_enum(value, enum_cls)`. The tests run in the source's order: a
   * member of `e` first (so it never reaches the integer lookup), then any
   * int (which includes members of other IntEnums), str, list, tuple, None.
   * A failure anywhere inside a list or tuple is caught and raised again
   * with the message of the enclosing value, so the error always names the
   * value that was passed in.
   */
  function Sanitize(v: Value, e: IntEnum): (r: Result<Value>)
    decreases v, 1
    ensures r.Err? ==> r.error == InvalidEnumValueMsg(v, e)
    ensures r.Ok? ==> Canonical(r.value)
  {
    if v.Member? && v.cls == e.cls then Ok(Str(v.name))
    else if v.Member? || v.Int? then
      var x := if v.Member? then v.number else v.i;
      match MemberByValue(e.members, x)
      case Some(m) => Ok(Str(m.0))
      case None => Err(InvalidEnumValueMsg(v, e))
    else if v.Str? then
      match MemberByName(e.members, v.s)
      case Some(m) => Ok(Str(m.0))
      case None => Err(InvalidEnumValueMsg(v, e))
    else if v.List? then
      match SanitizeEach(v.items, e)
      case Ok(ys) => Ok(List(ys))
      case Err(_) => Err(InvalidEnumValueMsg(v, e))
    else if v.Tuple? then
      match SanitizeEach(v.items, e)
      case Ok(ys) => Ok(Tuple(ys))
      case Err(_) => Err(InvalidEnumValueMsg(v, e))
    else if v.NoneValue? then Ok(NoneValue)
    else Err(InvalidEnumValueMsg(v, e))
  }

  /** The comprehension over a list's or tuple's items: stops at the first item that fails. */
  function SanitizeEach(xs: seq<Value>, e: IntEnum): (r: Result<seq<Value>>)
    decreases xs, 0
    ensures r.Ok? ==> |r.value| == |xs|
    ensures r.Ok? ==> forall i :: 0 <= i < |xs| ==> Sanitize(xs[i], e) == Ok(r.value[i])
    ensures r.Err? <==> exists i :: 0 <= i < |xs| && Sanitize(xs[i], e).Err?
  {
    if |xs| == 0 then Ok([])
    else
      match Sanitize(xs[0], e)
      case Err(msg) => Err(msg)
      case Ok(y) =>
        match SanitizeEach(xs[1..], e)
        case Err(msg) => Err(msg)
        case Ok(ys) => Ok([y] + ys)
  }

  // ---------------------------------------------------------------------
  // A reference definition of what sanitising means, independent of the
  // lookup order, and the lemmas that connect `Sanitize` to it.
  // ---------------------------------------------------------------------

  /** The scalar `v` stands for member `m` of `e`: it is `m` itself, its value, or its name. */
  ghost predicate Denotes(v: Value, m: (string, int), e: IntEnum)
  {
    match v
    case Member(c, n, x) => if c == e.cls then (n, x) == m else x == m.1
    case Int(x) => x == m.1
    case Str(s) => s == m.0
    case _ => false
  }

  /** Every scalar inside `v` stands for some member of `e`, and `v` holds nothing else but None. */
  ghost predicate Resolvable(v: Value, e: IntEnum)
    decreases v
  {
    match v
    case NoneValue => true
    case List(xs) => forall i :: 0 <= i < |xs| ==> Resolvable(xs[i], e)
    case Tuple(xs) => forall i :: 0 <= i < |xs| ==> Resolvable(xs[i], e)
    case Other(_) => false
    case _ => exists m :: m in e.members && Denotes(v, m, e)
  }

  /**
   * `w` is the sanitised form of `v`: the same container shape, None where
   * `v` has None, and the name of the member each scalar stands for.
   */
  ghost predicate Mirrors(v: Value, w: Value, e: IntEnum)
    decreases v
  {
    match v
    case NoneValue => w == NoneValue
    case List(xs) =>
      w.List? && |w.items| == |xs| && forall i :: 0 <= i < |xs| ==> Mirrors(xs[i], w.items[i], e)
    case Tuple(xs) =>
      w.Tuple? && |w.items| == |xs| && forall i :: 0 <= i < |xs| ==> Mirrors(xs[i], w.items[i], e)
    case Other(_) => false
    case _ => exists m :: m in e.members && Denotes(v, m, e) && w == Str(m.0)
  }

  /** Sanitising succeeds exactly on the values whose every scalar stands for a member. */
  lemma {:induction false} SanitizeSucceedsIff(v: Value, e: IntEnum)
    requires Consistent(v, e)
    ensures Sanitize(v, e).Ok? <==> Resolvable(v, e)
    decreases v
  {
    match v
    case List(xs) =>
      forall i | 0 <= i < |xs| { SanitizeSucceedsIff(xs[i], e); }
    case Tuple(xs) =>
      forall i | 0 <= i < |xs| { SanitizeSucceedsIff(xs[i], e); }
    case Member(c, n, x) =>
      if c == e.cls {
        assert Denotes(v, (n, x), e);
      } else if MemberByValue(e.members, x).Some? {
        assert Denotes(v, MemberByValue(e.members, x).value, e);
      }
    case Int(x) =>
      if MemberByValue(e.members, x).Some? {
        assert Denotes(v, MemberByValue(e.members, x).value, e);
      }
    case Str(s) =>
      if MemberByName(e.members, s).Some? {
        assert Denotes(v, MemberByName(e.members, s).value, e);
      }
    case _ =>
  }

  /** Whatever sanitising returns is the sanitised form of its input, and nothing else is. */
  lemma {:induction false} SanitizeMatchesReference(v: Value, w: Value, e: IntEnum)
    requires WellFormed(e) && Consistent(v, e)
    ensures Sanitize(v, e) == Ok(w) <==> Mirrors(v, w, e)
    decreases v
  {
    match v
    case List(xs) =>
      forall i | 0 <= i < |xs| && w.List? && |w.items| == |xs| {
        SanitizeMatchesReference(xs[i], w.items[i], e);
      }
      SanitizeContainer(v, w, e);
    case Tuple(xs) =>
      forall i | 0 <= i < |xs| && w.Tuple? && |w.items| == |xs| {
        SanitizeMatchesReference(xs[i], w.items[i], e);
      }
      SanitizeContainer(v, w, e);
    case Member(c, n, x) =>
      if c == e.cls {
        assert Denotes(v, (n, x), e);
        if Mirrors(v, w, e) {
          var m :| m in e.members && Denotes(v, m, e) && w == Str(m.0);
          assert m == (n, x);
        }
      } else {
        ScalarByValue(v, x, w, e);
      }
    case Int(x) =>
      ScalarByValue(v, x, w, e);
    case Str(s) =>
      var r := MemberByName(e.members, s);
      if r.Some? {
        assert Denotes(v, r.value, e);
      }
    case _ =>
  }

  /** The step of `SanitizeMatchesReference` for a scalar resolved through its integer value. */
  lemma ScalarByValue(v: Value, x: int, w: Value, e: IntEnum)
    requires WellFormed(e)
    requires v == Int(x) || (v.Member? && v.cls != e.cls && v.number == x)
    ensures Sanitize(v, e) == Ok(w) <==> Mirrors(v, w, e)
  {
    var r := MemberByValue(e.members, x);
    if r.Some? {
      assert Denotes(v, r.value, e);
      if Mirrors(v, w, e) {
        var m :| m in e.members && Denotes(v, m, e) && w == Str(m.0);
        var i :| 0 <= i < |e.members| && e.members[i] == m;
        var j :| 0 <= j < |e.members| && e.members[j] == r.value;
        assert i == j;
      }
    }
  }

  /** For a list or tuple whose items already satisfy the equivalence, so does the container. */
  lemma SanitizeContainer(v: Value, w: Value, e: IntEnum)
    requires v.List? || v.Tuple?
    requires (w.List? == v.List? && w.Tuple? == v.Tuple? && |w.items| == |v.items|) ==>
      forall i :: 0 <= i < |v.items| ==> (Sanitize(v.items[i], e) == Ok(w.items[i]) <==> Mirrors(v.items[i], w.items[i], e))
    ensures Sanitize(v, e) == Ok(w) <==> Mirrors(v, w, e)
  {
    var xs := v.items;
    var each := SanitizeEach(xs, e);
    if Sanitize(v, e) == Ok(w) {
      assert each.Ok? && w.items == each.value;
    }
    if Mirrors(v, w, e) {
      assert forall i :: 0 <= i < |xs| ==> Sanitize(xs[i], e) == Ok(w.items[i]);
      assert each.Ok?;
      assert each.value == w.items;
    }
  }

  /** A member, its integer value and its name all sanitise to the member's name. */
  lemma MemberForms(e: IntEnum, k: nat)
    requires WellFormed(e) && k < |e.members|
    ensures Sanitize(Member(e.cls, e.members[k].0, e.members[k].1), e) == Ok(Str(e.members[k].0))
    ensures Sanitize(Int(e.members[k].1), e) == Ok(Str(e.members[k].0))
    ensures Sanitize(Str(e.members[k].0), e) == Ok(Str(e.members[k].0))
  {
    var m := e.members[k];
    var r := MemberByValue(e.members, m.1);
    var j :| 0 <= j < |e.members| && e.members[j] == r.value;
    assert j == k;
  }

  /**
   * A member of another IntEnum is an int, so it resolves by its value: to
   * the member of `e` with that value, or to the invalid-value error.
   */
  lemma ForeignMember(e: IntEnum, c: string, n: string, x: int)
    requires WellFormed(e) && c != e.cls
    ensures forall k :: 0 <= k < |e.members| && e.members[k].1 == x ==>
      Sanitize(Member(c, n, x), e) == Ok(Str(e.members[k].0))
    ensures (forall k :: 0 <= k < |e.members| ==> e.members[k].1 != x) ==>
      Sanitize(Member(c, n, x), e) == Err(InvalidEnumValueMsg(Member(c, n, x), e))
  {
    forall k | 0 <= k < |e.members| && e.members[k].1 == x
      ensures Sanitize(Member(c, n, x), e) == Ok(Str(e.members[k].0))
    {
      MemberForms(e, k);
    }
  }

  /**
   * The failure cases: an unknown integer, an unknown name and any value of
   * another type fail with the message that names that value and lists every
   * member as "NAME (value)" in declaration order; None passes through.
   */
  lemma ScalarErrors(e: IntEnum, x: int, s: string, t: string)
    ensures Sanitize(NoneValue, e) == Ok(NoneValue)
    ensures Sanitize(Other(t), e) == Err("Invalid enum value: " + t + ". Must be one of: " + Join(", ", Choices(e)))
    ensures (forall k :: 0 <= k < |e.members| ==> e.members[k].1 != x) ==>
      Sanitize(Int(x), e) == Err("Invalid enum value: " + Decimal(x) + ". Must be one of: " + Join(", ", Choices(e)))
    ensures (forall k :: 0 <= k < |e.members| ==> e.members[k].0 != s) ==>
      Sanitize(Str(s), e) == Err("Invalid enum value: " + s + ". Must be one of: " + Join(", ", Choices(e)))
  {
  }

  /**
   * Lists and tuples are sanitised item by item: the container kind, length
   * and order are kept, and a single bad item fails the whole container with
   * the message about the container.
   */
  lemma {:induction false} ContainerItemwise(v: Value, e: IntEnum)
    requires v.List? || v.Tuple?
    ensures Sanitize(v, e).Ok? <==> forall i :: 0 <= i < |v.items| ==> Sanitize(v.items[i], e).Ok?
    ensures Sanitize(v, e).Ok? ==>
      var w := Sanitize(v, e).value;
      && w.List? == v.List? && w.Tuple? == v.Tuple?
      && |w.items| == |v.items|
      && forall i :: 0 <= i < |v.items| ==> Sanitize(v.items[i], e) == Ok(w.items[i])
    ensures Sanitize(v, e).Err? ==> Sanitize(v, e).error == InvalidEnumValueMsg(v, e)
  {
    var each := SanitizeEach(v.items, e);
    if each.Err? {
      var i :| 0 <= i < |v.items| && Sanitize(v.items[i], e).Err?;
    }
  }

  /** Sanitising its own output changes nothing: a name resolves to itself. */
  lemma {:induction false} SanitizeIdempotent(v: Value, e: IntEnum)
    requires Consistent(v, e)
    ensures Sanitize(v, e).Ok? ==> Sanitize(Sanitize(v, e).value, e) == Sanitize(v, e)
    decreases v
  {
    var r := Sanitize(v, e);
    if r.Ok? {
      match v
      case List(xs) =>
        var ys := r.value.items;
        forall i | 0 <= i < |xs| ensures Sanitize(ys[i], e) == Ok(ys[i]) {
          SanitizeIdempotent(xs[i], e);
        }
        ItemsFixed(ys, e);
      case Tuple(xs) =>
        var ys := r.value.items;
        forall i | 0 <= i < |xs| ensures Sanitize(ys[i], e) == Ok(ys[i]) {
          SanitizeIdempotent(xs[i], e);
        }
        ItemsFixed(ys, e);
      case Member(c, n, x) =>
        if c == e.cls {
          var i :| 0 <= i < |e.members| && e.members[i] == (n, x);
          NameIsFixed(e, i);
        } else {
          NameIsFixed(e, IndexOf(e.members, MemberByValue(e.members, x).value));
        }
      case Int(x) =>
        NameIsFixed(e, IndexOf(e.members, MemberByValue(e.members, x).value));
      case Str(s) =>
        NameIsFixed(e, IndexOf(e.members, MemberByName(e.members, s).value));
      case _ =>
    }
  }

  /** A position at which `m` occurs in `ms`. */
  function IndexOf(ms: seq<(string, int)>, m: (string, int)): (i: nat)
    requires m in ms
    ensures i < |ms| && ms[i] == m
  {
    if ms[0] == m then 0 else 1 + IndexOf(ms[1..], m)
  }

  lemma NameIsFixed(e: IntEnum, k: nat)
    requires k < |e.members|
    ensures Sanitize(Str(e.members[k].0), e) == Ok(Str(e.members[k].0))
  {
    assert MemberByName(e.members, e.members[k].0).Some?;
  }

  lemma ItemsFixed(ys: seq<Value>, e: IntEnum)
    requires forall i :: 0 <= i < |ys| ==> Sanitize(ys[i], e) == Ok(ys[i])
    ensures SanitizeEach(ys, e) == Ok(ys)
  {
    var each := SanitizeEach(ys, e);
    assert each.Ok?;
    assert each.value == ys;
  }
}
