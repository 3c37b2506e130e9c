/** The dotted-path edit of a configuration document, as a lens on JSON trees. */
module Patch {
  import opened Bytes
  import opened Text

  /** Numbers are opaque: `Num` carries the identity of a float64. */
  datatype Json =
    | Null
    | Bool(b: bool)
    | Num(id: int)
    | Str(s: Line)
    | List(items: seq<Json>)
    | Object(fields: map<Line, Json>)

  /** The library parsers the edit relies on. */
  datatype Library = Library(
    parseFloat: Line -> Option<int>, parseBool: Line -> Option<bool>,
    unmarshal: Line -> Option<Json>, unmarshalString: Line -> Option<Line>)

  const QUOTE: Byte := 34

  /** Interpret the text by the type of the value it replaces. */
  function Coerce(lib: Library, value: Line, was: Json): Result<Json> {
    match was
    case Str(_) =>
      if |value| >= 2 && value[0] == QUOTE && value[|value| - 1] == QUOTE && lib.unmarshalString(value).Some? then
        Ok(Str(lib.unmarshalString(value).value))
      else Ok(Str(value))
    case Num(_) =>
      (match lib.parseFloat(value) case Some(n) => Ok(Num(n)) case None => Err)
    case Bool(_) =>
      (match lib.parseBool(value) case Some(b) => Ok(Bool(b)) case None => Err)
    case Null =>
      (match lib.unmarshal(value) case Some(v) => Ok(v) case None => Ok(Str(value)))
    case _ =>
      (match lib.unmarshal(value) case Some(v) => Ok(v) case None => Err)
  }

  /** The list index a segment names, if it is one of a list of `n`. */
  function Index(seg: Line, n: nat): (r: Option<nat>)
    ensures r.Some? ==> r.value < n
  {
    match ParseDecimal(seg)
    case Some(i) => if 0 <= i < n then Some(i) else None
    case None => None
  }

  function Child(node: Json, seg: Line): Result<Json> {
    match node
    case Object(fields) => if seg in fields then Ok(fields[seg]) else Err
    case List(items) =>
      (match Index(seg, |items|) case Some(i) => Ok(items[i]) case None => Err)
    case _ => Err
  }

  function Get(node: Json, path: seq<Line>): Result<Json>
    decreases |path|
  {
    if path == [] then Ok(node)
    else
      var next :- Child(node, path[0]);
      Get(next, path[1..])
  }

  /** The container with one child replaced. */
  function WithChild(node: Json, seg: Line, child: Json): Json
    requires Child(node, seg).Ok?
  {
    match node
    case Object(fields) => Object(fields[seg := child])
    case List(items) => List(items[Index(seg, |items|).value := child])
  }

  function Set(lib: Library, node: Json, path: seq<Line>, value: Line): Result<Json>
    requires path != []
    decreases |path|
  {
    var was :- Child(node, path[0]);
    if |path| == 1 then
      var parsed :- Coerce(lib, value, was);
      Ok(WithChild(node, path[0], parsed))
    else
      var child :- Set(lib, was, path[1..], value);
      Ok(WithChild(node, path[0], child))
  }

  const DOT: Byte := 46

  function DotAt(s: Line): (i: nat)
    ensures i <= |s| && (i < |s| ==> s[i] == DOT)
  {
    if s == [] || s[0] == DOT then 0 else 1 + DotAt(s[1..])
  }

  /** `strings.Split(s, ".")`, never empty. */
  function Segments(s: Line): (segs: seq<Line>)
    ensures segs != []
    decreases |s|
  {
    var i := DotAt(s);
    if i == |s| then [s] else [s[..i]] + Segments(s[i + 1..])
  }

  /** The command: an empty path is refused before the document is walked. */
  function SetPath(lib: Library, doc: Json, path: Line, value: Line): Result<Json> {
    if path == [] then Err else Set(lib, doc, Segments(path), value)
  }

  /** The walk that `Get` does in a loop. */
  method GetPath(doc: Json, path: Line) returns (r: Result<Json>)
    ensures r == Get(doc, Segments(path))
  {
    var segs := Segments(path);
    var node := doc;
    for i := 0 to |segs|
      invariant Get(node, segs[i..]) == Get(doc, segs)
    {
      assert segs[i..][1..] == segs[i + 1..];
      var next := Child(node, segs[i]);
      if next.Err? {
        return Err;
      }
      node := next.value;
    }
    return Ok(node);
  }

  function JoinSegments(segs: seq<Line>): Line
    requires segs != []
  {
    if |segs| == 1 then segs[0] else segs[0] + ([DOT] + JoinSegments(segs[1..]))
  }

  /** Splitting loses nothing, and leaves no dot inside a segment. */
  lemma {:induction false} SegmentsJoin(s: Line)
    ensures JoinSegments(Segments(s)) == s
    ensures forall seg <- Segments(s) :: DOT !in seg
    decreases |s|
  {
    hide DotAt, JoinSegments;
    var i := DotAt(s);
    FirstDot(s);
    if i < |s| {
      var rest := Segments(s[i + 1..]);
      SegmentsJoin(s[i + 1..]);
      JoinFirst(s[..i], rest);
      assert s == s[..i] + ([DOT] + s[i + 1..]);
    } else {
      JoinOne(s);
      assert s[..i] == s;
    }
  }

  lemma JoinOne(seg: Line)
    ensures JoinSegments([seg]) == seg
  {
  }

  lemma JoinFirst(seg: Line, rest: seq<Line>)
    requires rest != []
    ensures JoinSegments([seg] + rest) == seg + ([DOT] + JoinSegments(rest))
  {
    assert ([seg] + rest)[1..] == rest;
  }

  lemma {:induction false} FirstDot(s: Line)
    ensures DOT !in s[..DotAt(s)]
  {
    if s != [] && s[0] != DOT {
      FirstDot(s[1..]);
      assert s[..DotAt(s)] == [s[0]] + s[1..][..DotAt(s[1..])];
    }
  }

  /** Dots anywhere separate segments. */
  lemma {:induction false} SegmentsAtDot(a: Line, b: Line)
    ensures Segments(a + [46] + b) == Segments(a) + Segments(b)
    decreases |a|
  {
    hide DotAt;
    var i, s := DotAt(a), a + [46] + b;
    DotAtFirst(a, b);
    if i == |a| {
      assert s[..i] == a && s[i + 1..] == b;
    } else {
      assert s[..i] == a[..i] && s[i + 1..] == a[i + 1..] + [46] + b;
      SegmentsAtDot(a[i + 1..], b);
    }
  }

  lemma {:induction false} DotAtFirst(a: Line, b: Line)
    ensures DotAt(a + [46] + b) == DotAt(a)
  {
    if a == [] {
      assert ([] + [46] + b)[0] == 46;
    } else {
      assert (a + [46] + b)[1..] == a[1..] + [46] + b;
      DotAtFirst(a[1..], b);
    }
  }

  /** A list index is a printed natural number below the length. */
  lemma IndexOfPrinted(i: nat, n: nat)
    ensures Index(Dec(i), n) == if i < n then Some(i) else None
    ensures i > 0 ==> Index([45] + Dec(i), n) == None
  {
    hide Dec, DigitsValue;
    ParseDec(i);
    DecDigits(i);
    assert ([45] + Dec(i))[1..] == Dec(i);
  }

  // ----- the lens laws

  lemma ChildOfWithChild(node: Json, seg: Line, child: Json)
    requires Child(node, seg).Ok?
    ensures Child(WithChild(node, seg, child), seg) == Ok(child)
  {
  }

  /** An edit succeeds exactly when the path resolves and the text suits what is there; and then
      reading the path gives the interpreted text. */
  lemma {:induction false} SetThenGet(lib: Library, doc: Json, path: seq<Line>, value: Line)
    requires path != []
    ensures Set(lib, doc, path, value).Ok?
       <==> Get(doc, path).Ok? && Coerce(lib, value, Get(doc, path).value).Ok?
    ensures Set(lib, doc, path, value).Ok? ==>
      Get(Set(lib, doc, path, value).value, path) == Coerce(lib, value, Get(doc, path).value)
    decreases |path|
  {
    hide Coerce;
    var was := Child(doc, path[0]);
    if was.Ok? {
      if |path| > 1 {
        SetThenGet(lib, was.value, path[1..], value);
        if Set(lib, was.value, path[1..], value).Ok? {
          ChildOfWithChild(doc, path[0], Set(lib, was.value, path[1..], value).value);
        }
      } else {
        assert path[1..] == [];
        if Coerce(lib, value, was.value).Ok? {
          ChildOfWithChild(doc, path[0], Coerce(lib, value, was.value).value);
        }
      }
    }
  }

  /** The command: exactly when it fails, and what reading the path back then gives. */
  lemma SetPathThenGet(lib: Library, doc: Json, path: Line, value: Line)
    ensures
      var was, r := Get(doc, Segments(path)), SetPath(lib, doc, path, value);
      && (r.Ok? <==> path != [] && was.Ok? && Coerce(lib, value, was.value).Ok?)
      && (r.Ok? ==> Get(r.value, Segments(path)) == Coerce(lib, value, was.value))
  {
    hide Coerce, Get, Set, Segments;
    if path != [] {
      SetThenGet(lib, doc, Segments(path), value);
    }
  }

  /** Two segments lead to the same child of a node; for a list they may be written differently. */
  predicate SameChild(node: Json, a: Line, b: Line) {
    match node
    case List(items) => Index(a, |items|) == Index(b, |items|)
    case _ => a == b
  }

  /** The two paths part in this document before either ends. */
  predicate Part(node: Json, p: seq<Line>, q: seq<Line>)
    decreases |p|
  {
    && p != [] && q != [] && Child(node, p[0]).Ok?
    && (!SameChild(node, p[0], q[0]) || Part(Child(node, p[0]).value, p[1..], q[1..]))
  }

  lemma OtherChild(node: Json, seg: Line, other: Line, child: Json)
    requires Child(node, seg).Ok?
    ensures SameChild(node, seg, other) ==> Child(WithChild(node, seg, child), other) == Ok(child)
    ensures SameChild(node, seg, other) ==> Child(node, other) == Child(node, seg)
    ensures !SameChild(node, seg, other) ==> Child(WithChild(node, seg, child), other) == Child(node, other)
  {
  }

  /** Every path that parts from the edited one reads as before, whether or not it resolves. */
  lemma {:induction false} SetLeavesOthers(lib: Library, doc: Json, path: seq<Line>, value: Line, other: seq<Line>)
    requires path != [] && Set(lib, doc, path, value).Ok? && Part(doc, path, other)
    ensures Get(Set(lib, doc, path, value).value, other) == Get(doc, other)
    decreases |path|
  {
    hide Coerce, WithChild, Child, SameChild;
    var was := Child(doc, path[0]).value;
    if |path| == 1 {
      OtherChild(doc, path[0], other[0], Coerce(lib, value, was).value);
    } else {
      OtherChild(doc, path[0], other[0], Set(lib, was, path[1..], value).value);
      if SameChild(doc, path[0], other[0]) {
        SetLeavesOthers(lib, was, path[1..], value, other[1..]);
      }
    }
  }

  /** The same kind of container, with the same keys or the same number of elements. */
  ghost predicate SameShape(a: Json, b: Json) {
    match (a, b)
    case (Object(x), Object(y)) => x.Keys == y.Keys
    case (List(x), List(y)) => |x| == |y|
    case _ => false
  }

  lemma WithChildShape(node: Json, seg: Line, child: Json)
    requires Child(node, seg).Ok?
    ensures SameShape(node, WithChild(node, seg, child))
  {
  }

  /** No container on the way gains or loses a key or an element. */
  lemma {:induction false} SetKeepsShape(lib: Library, doc: Json, path: seq<Line>, value: Line, k: nat)
    requires path != [] && Set(lib, doc, path, value).Ok? && k < |path|
    ensures Get(doc, path[..k]).Ok? && Get(Set(lib, doc, path, value).value, path[..k]).Ok?
    ensures SameShape(Get(doc, path[..k]).value, Get(Set(lib, doc, path, value).value, path[..k]).value)
    decreases |path|
  {
    hide Coerce, WithChild, Child;
    var was := Child(doc, path[0]).value;
    var now := if |path| == 1 then Coerce(lib, value, was).value else Set(lib, was, path[1..], value).value;
    WithChildShape(doc, path[0], now);
    if k > 0 {
      ChildOfWithChild(doc, path[0], now);
      SetKeepsShape(lib, was, path[1..], value, k - 1);
      assert path[..k][1..] == path[1..][..k - 1];
    }
  }

  /** Below the edited place one reads into the new value. */
  lemma {:induction false} GetBelow(doc: Json, path: seq<Line>, rest: seq<Line>)
    requires Get(doc, path).Ok?
    ensures Get(doc, path + rest) == Get(Get(doc, path).value, rest)
    decreases |path|
  {
    hide Child;
    if path == [] {
      assert path + rest == rest;
    } else {
      assert (path + rest)[1..] == path[1..] + rest;
      GetBelow(Child(doc, path[0]).value, path[1..], rest);
    }
  }

  /** How a value decides the reading of new text: lists and objects read alike. */
  function Kind(v: Json): nat {
    match v
    case Null => 0
    case Bool(_) => 1
    case Num(_) => 2
    case Str(_) => 3
    case _ => 4
  }

  lemma CoerceByKind(lib: Library, value: Line, a: Json, b: Json)
    requires Kind(a) == Kind(b)
    ensures Coerce(lib, value, a) == Coerce(lib, value, b)
  {
  }

  /** Only text that no value of the kind is written as is refused; plain text for a string never is. */
  lemma CoerceIff(lib: Library, value: Line, was: Json)
    ensures Coerce(lib, value, was).Err?
       <==> (was.Num? && lib.parseFloat(value).None?) || (was.Bool? && lib.parseBool(value).None?)
            || ((was.List? || was.Object?) && lib.unmarshal(value).None?)
    ensures
      var quoted := |value| >= 2 && value[0] == 34 && value[|value| - 1] == 34 && lib.unmarshalString(value).Some?;
      was.Str? ==> Coerce(lib, value, was) == Ok(Str(if quoted then lib.unmarshalString(value).value else value))
    ensures was.Null? && lib.unmarshal(value).None? ==> Coerce(lib, value, was) == Ok(Str(value))
    ensures !was.Str? && !was.Num? && !was.Bool? && lib.unmarshal(value).Some? ==>
      Coerce(lib, value, was) == Ok(lib.unmarshal(value).value)
  {
  }

  /** Editing a string, number or boolean keeps its kind. */
  lemma ScalarKeepsKind(lib: Library, value: Line, was: Json)
    requires Coerce(lib, value, was).Ok? && (was.Str? || was.Num? || was.Bool?)
    ensures Kind(Coerce(lib, value, was).value) == Kind(was)
  {
  }

  /** A second edit of the same place leaves no trace of a first that kept its kind. */
  lemma {:induction false} SetSet(lib: Library, doc: Json, path: seq<Line>, first: Line, second: Line)
    requires path != [] && Set(lib, doc, path, first).Ok?
    requires
      && Get(doc, path).Ok? && Coerce(lib, first, Get(doc, path).value).Ok?
      && Kind(Coerce(lib, first, Get(doc, path).value).value) == Kind(Get(doc, path).value)
    ensures Set(lib, Set(lib, doc, path, first).value, path, second) == Set(lib, doc, path, second)
    decreases |path|
  {
    hide Coerce, WithChild, Child, Kind;
    var was := Child(doc, path[0]).value;
    if |path| == 1 {
      assert path[1..] == [];
      var x := Coerce(lib, first, was).value;
      ChildOfWithChild(doc, path[0], x);
      CoerceByKind(lib, second, x, was);
      if Coerce(lib, second, was).Ok? {
        WithChildTwice(doc, path[0], x, Coerce(lib, second, was).value);
      }
    } else {
      var x := Set(lib, was, path[1..], first).value;
      ChildOfWithChild(doc, path[0], x);
      SetSet(lib, was, path[1..], first, second);
      if Set(lib, was, path[1..], second).Ok? {
        WithChildTwice(doc, path[0], x, Set(lib, was, path[1..], second).value);
      }
    }
  }

  lemma WithChildTwice(node: Json, seg: Line, x: Json, y: Json)
    requires Child(node, seg).Ok?
    ensures Child(WithChild(node, seg, x), seg).Ok?
    ensures WithChild(WithChild(node, seg, x), seg, y) == WithChild(node, seg, y)
  {
  }
}
