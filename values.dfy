/**
 * The values an enum-annotated field can receive, the integer-backed
 * enumerations they are resolved against, and the way Python prints them
 * (needed because the error message embeds the offending value).
 */
module Values {

  datatype Option<+T> = None | Some(value: T)

  /** The outcome of a step that may raise: `Err` carries the ValueError's message. */
  datatype Result<+T> = Ok(value: T) | Err(error: string)

  /**
   * An `IntEnum` class: its class name, which stands for the class's identity,
   * and its members as (name, integer value) pairs in declaration order.
   */
  datatype IntEnum = IntEnum(cls: string, members: seq<(string, int)>)

  /**
   * What Python's enum machinery guarantees of the enumerations in scope:
   * member names are non-empty identifiers, and names and values are unique.
   */
  ghost predicate WellFormed(e: IntEnum)
  {
    && (forall i :: 0 <= i < |e.members| ==> e.members[i].0 != "")
    && (forall i, j :: 0 <= i < j < |e.members| ==>
          e.members[i].0 != e.members[j].0 && e.members[i].1 != e.members[j].1)
  }

  /** The member names of `e`, in declaration order. */
  function Names(e: IntEnum): (r: seq<string>)
    ensures |r| == |e.members|
  {
    seq(|e.members|, i requires 0 <= i < |e.members| => e.members[i].0)
  }

  /**
   * A raw field value. `Member` is a member of the IntEnum class named `cls`;
   * `Other` is any other Python object (a float, a dict, ...), kept only as
   * the text Python prints for it.
   */
  datatype Value =
    | Member(cls: string, name: string, number: int)
    | Int(i: int)
    | Str(s: string)
    | List(items: seq<Value>)
    | Tuple(items: seq<Value>)
    | NoneValue
    | Other(text: string)

  /** Every member of `e` that occurs in `v` really is one of `e`'s members. */
  ghost predicate Consistent(v: Value, e: IntEnum)
    decreases v
  {
    match v
    case Member(c, n, x) => c == e.cls ==> (n, x) in e.members
    case List(xs) => forall i :: 0 <= i < |xs| ==> Consistent(xs[i], e)
    case Tuple(xs) => forall i :: 0 <= i < |xs| ==> Consistent(xs[i], e)
    case _ => true
  }

  /**
   * Python truthiness, as `if value:` tests it. An IntEnum member is an int.
   * No sanitised value is ever `Other`; such objects are taken as truthy.
   */
  predicate Truthy(v: Value)
  {
    match v
    case Member(_, _, x) => x != 0
    case Int(x) => x != 0
    case Str(s) => s != ""
    case List(xs) => xs != []
    case Tuple(xs) => xs != []
    case NoneValue => false
    case Other(_) => true
  }

  function DigitChar(d: nat): char
    requires d < 10
  {
    "0123456789"[d]
  }

  function NatToDecimal(n: nat): string
    decreases n
  {
    if n < 10 then [DigitChar(n)] else NatToDecimal(n / 10) + [DigitChar(n % 10)]
  }

  /** `str(i)` for a Python int. */
  function Decimal(i: int): string
  {
    if i < 0 then "-" + NatToDecimal(-i) else NatToDecimal(i)
  }

  /** `sep.join(parts)`. */
  function Join(sep: string, parts: seq<string>): string
    decreases |parts|
  {
    if |parts| == 0 then ""
    else if |parts| == 1 then parts[0]
    else parts[0] + sep + Join(sep, parts[1..])
  }

  /** Where `parts[k]` starts in `Join(sep, parts)`: after each earlier part and its separator. */
  function JoinOffset(sep: string, parts: seq<string>, k: nat): nat
    requires k <= |parts|
    decreases k
  {
    if k == 0 then 0 else |parts[0]| + |sep| + JoinOffset(sep, parts[1..], k - 1)
  }

  /** A slice taken from the second half of `x + y` is a slice of `y`. */
  lemma SliceAfter(x: string, y: string, i: nat, j: nat)
    requires i <= j <= |y|
    ensures (x + y)[|x| + i..|x| + j] == y[i..j]
  {
    assert forall n :: 0 <= n < j - i ==> (x + y)[|x| + i..|x| + j][n] == y[i..j][n];
  }

  /** A slice taken from the first half of `x + y` is a slice of `x`. */
  lemma SliceBefore(x: string, y: string, i: nat, j: nat)
    requires i <= j <= |x|
    ensures (x + y)[i..j] == x[i..j]
  {
    assert forall n :: 0 <= n < j - i ==> (x + y)[i..j][n] == x[i..j][n];
  }

  /** `sep.join(parts)` holds part `k` at its offset. */
  lemma {:induction false} JoinPart(sep: string, parts: seq<string>, k: nat)
    requires k < |parts|
    ensures JoinOffset(sep, parts, k) + |parts[k]| <= |Join(sep, parts)|
    ensures Join(sep, parts)[JoinOffset(sep, parts, k)..JoinOffset(sep, parts, k) + |parts[k]|] == parts[k]
    decreases k
  {
    if |parts| > 1 {
      var head := parts[0] + sep;
      var tail := Join(sep, parts[1..]);
      assert Join(sep, parts) == head + tail;
      if k == 0 {
        SliceBefore(head, tail, 0, |parts[0]|);
        SliceBefore(parts[0], sep, 0, |parts[0]|);
      } else {
        JoinPart(sep, parts[1..], k - 1);
        var o := JoinOffset(sep, parts[1..], k - 1);
        assert parts[1..][k - 1] == parts[k];
        SliceAfter(head, tail, o, o + |parts[k]|);
      }
    }
  }

  /** In `sep.join(parts)`, a separator follows every part but the last. */
  lemma {:induction false} JoinSeparator(sep: string, parts: seq<string>, k: nat)
    requires k + 1 < |parts|
    ensures JoinOffset(sep, parts, k) + |parts[k]| + |sep| <= |Join(sep, parts)|
    ensures Join(sep, parts)[JoinOffset(sep, parts, k) + |parts[k]|..JoinOffset(sep, parts, k) + |parts[k]| + |sep|] == sep
    decreases k
  {
    var head := parts[0] + sep;
    var tail := Join(sep, parts[1..]);
    assert Join(sep, parts) == head + tail;
    if k > 0 {
      JoinSeparator(sep, parts[1..], k - 1);
      var o := JoinOffset(sep, parts[1..], k - 1);
      assert parts[1..][k - 1] == parts[k];
      SliceAfter(head, tail, o + |parts[k]|, o + |parts[k]| + |sep|);
    } else {
      SliceBefore(head, tail, |parts[0]|, |head|);
      SliceAfter(parts[0], sep, 0, |sep|);
    }
  }

  /** `sep.join(parts)` ends with its last part. */
  lemma {:induction false} JoinEnd(sep: string, parts: seq<string>)
    requires |parts| > 0
    ensures |Join(sep, parts)| == JoinOffset(sep, parts, |parts| - 1) + |parts[|parts| - 1]|
    decreases |parts|
  {
    if |parts| > 1 {
      JoinEnd(sep, parts[1..]);
      assert parts[1..][|parts| - 2] == parts[|parts| - 1];
    }
  }

  /** The layout of `sep.join(parts)`, placed after a fixed text `head`. */
  lemma JoinAfter(head: string, sep: string, parts: seq<string>, k: nat)
    requires k < |parts|
    ensures var r := head + Join(sep, parts);
      var o := |head| + JoinOffset(sep, parts, k);
      && o + |parts[k]| <= |r| && r[o..o + |parts[k]|] == parts[k]
      && (k + 1 < |parts| ==> o + |parts[k]| + |sep| <= |r| && r[o + |parts[k]|..o + |parts[k]| + |sep|] == sep)
      && (k + 1 == |parts| ==> |r| == o + |parts[k]|)
  {
    var j := Join(sep, parts);
    var o := JoinOffset(sep, parts, k);
    JoinPart(sep, parts, k);
    SliceAfter(head, j, o, o + |parts[k]|);
    if k + 1 < |parts| {
      JoinSeparator(sep, parts, k);
      SliceAfter(head, j, o + |parts[k]|, o + |parts[k]| + |sep|);
    } else {
      JoinEnd(sep, parts);
    }
  }

  /** The pieces of `a + b + c + rest` sit one after another. */
  lemma ConcatSlices(a: string, b: string, c: string, rest: string)
    ensures var r := a + b + c + rest;
      && |r| == |a| + |b| + |c| + |rest|
      && r[..|a|] == a
      && r[|a|..|a| + |b|] == b
      && r[|a| + |b|..|a| + |b| + |c|] == c
  {
    var r := a + b + c + rest;
    assert r == a + (b + (c + rest));
    SliceBefore(a, b + (c + rest), 0, |a|);
    SliceAfter(a, b + (c + rest), 0, |b|);
    SliceBefore(b, c + rest, 0, |b|);
    SliceAfter(a, b + (c + rest), |b|, |b| + |c|);
    SliceAfter(b, c + rest, 0, |c|);
    SliceBefore(c, rest, 0, |c|);
  }

  /** Backslashes and the chosen quote character, escaped as `repr` does. */
  function Escape(s: string, quote: char): string
    decreases |s|
  {
    if |s| == 0 then ""
    else (if s[0] == '\\' || s[0] == quote then ['\\', s[0]] else [s[0]]) + Escape(s[1..], quote)
  }

  /** `repr(s)` for a str: double quotes only when `s` holds a single quote and no double quote. */
  function StrRepr(s: string): string
  {
    if '\'' in s && '"' !in s then "\"" + Escape(s, '"') + "\""
    else "'" + Escape(s, '\'') + "'"
  }

  /** `repr(v)`, which is how list and tuple items are printed. */
  function Repr(v: Value): string
    decreases v, 1
  {
    match v
    case Member(c, n, x) => "<" + c + "." + n + ": " + Decimal(x) + ">"
    case Int(x) => Decimal(x)
    case Str(s) => StrRepr(s)
    case List(xs) => "[" + ReprItems(xs) + "]"
    case Tuple(xs) => "(" + ReprItems(xs) + (if |xs| == 1 then "," else "") + ")"
    case NoneValue => "None"
    case Other(t) => t
  }

  /** The items of a list or tuple, each by its `repr`, separated by ", ". */
  function ReprItems(xs: seq<Value>): string
    decreases xs, 0
  {
    if |xs| == 0 then ""
    else if |xs| == 1 then Repr(xs[0])
    else Repr(xs[0]) + ", " + ReprItems(xs[1..])
  }

  /**
   * `f"{v}"`: an IntEnum member formats as its integer and a str as itself;
   * every other value prints as its `repr`.
   */
  function Display(v: Value): string
  {
    match v
    case Member(_, _, x) => Decimal(x)
    case Str(s) => s
    case _ => Repr(v)
  }
}
