/** The edit in place: the containers of a parsed document, rewritten along one path. */
module Documents {
  import opened Bytes
  import opened Patch
  import opened Text

  /** A value, or a reference to a map or slice that edits rewrite. */
  datatype Node = Plain(v: Json) | Ref(c: Container)

  datatype Body = Fields(m: map<Line, Node>) | Items(s: seq<Node>)

  /** The JSON value a node stands for. */
  ghost function NodeValue(n: Node): Json
    reads if n.Ref? then {n.c} else {}
  {
    if n.Ref? then n.c.value else n.v
  }

  ghost function NodeRepr(n: Node): set<Container>
    reads if n.Ref? then {n.c} else {}
  {
    if n.Ref? then n.c.repr else {}
  }

  predicate Flat(v: Json) {
    !v.List? && !v.Object?
  }

  /** The node is a tree in good order. */
  ghost predicate Sound(n: Node)
    reads if n.Ref? then {n.c} + n.c.repr else {}
    decreases NodeRepr(n), 2
  {
    if n.Ref? then n.c in n.c.repr && n.c.Valid() else Flat(n.v)
  }

  /** The node is the tree of a value, inside `r` and apart from its parent. */
  ghost predicate Kid(n: Node, v: Json, r: set<Container>, parent: Container)
    reads if n.Ref? then {n.c} + n.c.repr else {}
    decreases NodeRepr(n), 3
  {
    && NodeRepr(n) <= r && parent !in NodeRepr(n) && (n.Ref? ==> n.c in n.c.repr)
    && Sound(n) && NodeValue(n) == v
  }

  lemma KidApart(n: Node, v: Json, r: set<Container>, parent: Container)
    requires Kid(n, v, r, parent)
    ensures parent !in NodeRepr(n) && (n.Ref? ==> n.c != parent && parent !in n.c.repr)
  {
    hide Sound;
  }

  lemma KidWidens(n: Node, v: Json, r: set<Container>, wide: set<Container>, parent: Container)
    requires Kid(n, v, r, parent) && r <= wide
    ensures Kid(n, v, wide, parent) && parent !in NodeRepr(n)
    ensures n.Ref? ==> n.c != parent && parent !in n.c.repr
  {
    hide Sound;
  }

  /** The nodes are the trees of the values under the same keys, inside `r` and apart. */
  ghost predicate Kids(m: map<Line, Node>, fields: map<Line, Json>, r: set<Container>, parent: Container)
    reads set k | k in m && m[k].Ref? :: m[k].c, set k, o | k in m && m[k].Ref? && o in m[k].c.repr :: o
  {
    && m.Keys == fields.Keys
    && (forall k | k in m :: Kid(m[k], fields[k], r, parent))
    && (forall a, b | a in m && b in m && a != b :: NodeRepr(m[a]) !! NodeRepr(m[b]))
  }

  lemma KidsApart(m: map<Line, Node>, fields: map<Line, Json>, r: set<Container>, parent: Container)
    requires Kids(m, fields, r, parent)
    ensures forall k | k in m && m[k].Ref? :: m[k].c != parent && parent !in m[k].c.repr
  {
    hide Sound;
  }

  /** With `n` for the child at `k`, they are again. */
  lemma FieldsReplaced(m: map<Line, Node>, fields: map<Line, Json>, r: set<Container>, parent: Container, k: Line,
                       n: Node, v: Json)
    requires k in m && m.Keys == fields.Keys
    requires forall b | b in m && b != k :: Kid(m[b], fields[b], r, parent)
    requires forall a, b | a in m && b in m && a != b && a != k && b != k :: NodeRepr(m[a]) !! NodeRepr(m[b])
    requires Kid(n, v, r + NodeRepr(n), parent)
    requires forall b | b in m && b != k :: NodeRepr(n) !! NodeRepr(m[b])
    ensures Kids(m[k := n], fields[k := v], r + NodeRepr(n), parent)
  {
    hide Kid, NodeRepr;
    forall b | b in m && b != k
      ensures Kid(m[b], fields[b], r + NodeRepr(n), parent)
    {
      KidWidens(m[b], fields[b], r, r + NodeRepr(n), parent);
    }
  }

  class Container {
    var body: Body
    ghost var value: Json
    ghost var repr: set<Container>

    constructor (body: Body, ghost value: Json, ghost repr: set<Container>)
      ensures this.body == body && this.value == value && this.repr == repr + {this}
    {
      this.body := body;
      this.value := value;
      this.repr := repr + {this};
    }

    ghost predicate Valid()
      reads this, repr
      decreases repr, 1
    {
      && this in repr
      && match body
         case Fields(m) =>
           && value.Object? && value.fields.Keys == m.Keys
           && (forall k | k in m && m[k].Ref? :: m[k].c in repr && m[k].c.repr <= repr && this !in m[k].c.repr)
           && (forall k | k in m :: Kid(m[k], value.fields[k], repr, this))
           && (forall a, b | a in m && b in m && a != b :: NodeRepr(m[a]) !! NodeRepr(m[b]))
         case Items(s) =>
           && value.List? && |value.items| == |s|
           && (forall i | 0 <= i < |s| && s[i].Ref? :: s[i].c in repr && s[i].c.repr <= repr && this !in s[i].c.repr)
           && (forall i | 0 <= i < |s| :: Kid(s[i], value.items[i], repr, this))
           && (forall i, j | 0 <= i < |s| && 0 <= j < |s| && i != j :: NodeRepr(s[i]) !! NodeRepr(s[j]))
    }

    method PutField(k: Line, n: Node, ghost v: Json)
      requires body.Fields? && k in body.m && this in repr
      requires value.Object? && value.fields.Keys == body.m.Keys
      requires forall b | b in body.m && b != k :: Kid(body.m[b], value.fields[b], repr, this)
      requires forall a, b | a in body.m && b in body.m && a != b && a != k && b != k ::
                 NodeRepr(body.m[a]) !! NodeRepr(body.m[b])
      requires Kid(n, v, repr + NodeRepr(n), this)
      requires forall b | b in body.m && b != k :: NodeRepr(n) !! NodeRepr(body.m[b])
      modifies this
      ensures Valid() && repr == old(repr) + NodeRepr(n)
      ensures value == Object(old(value.fields)[k := v])
    {
      hide Sound, Valid, Kid, Kids;
      var now := body.m[k := n];
      ghost var values, wide := value.fields[k := v], repr + NodeRepr(n);
      FieldsReplaced(body.m, value.fields, repr, this, k, n, v);
      KidsApart(now, values, wide, this);
      body := Fields(now);
      value := Object(values);
      repr := wide;
      FieldsValid(now);
    }

    lemma FieldsValid(m: map<Line, Node>)
      requires body == Fields(m) && this in repr && value.Object?
      requires Kids(m, value.fields, repr, this)
      ensures Valid()
    {
      hide Sound;
    }

    method PutItem(i: nat, n: Node, ghost v: Json)
      requires body.Items? && i < |body.s| && this in repr
      requires value.List? && |value.items| == |body.s|
      requires forall j | 0 <= j < |body.s| && j != i :: Kid(body.s[j], value.items[j], repr, this)
      requires forall a, b | 0 <= a < |body.s| && 0 <= b < |body.s| && a != b && a != i && b != i ::
                 NodeRepr(body.s[a]) !! NodeRepr(body.s[b])
      requires Kid(n, v, repr + NodeRepr(n), this)
      requires forall j | 0 <= j < |body.s| && j != i :: NodeRepr(n) !! NodeRepr(body.s[j])
      modifies this
      ensures Valid() && repr == old(repr) + NodeRepr(n)
      ensures value == List(old(value.items)[i := v])
    {
      hide Sound, Valid, Kid;
      ghost var was, before := body.s, repr;
      forall j | 0 <= j < |was| && j != i
        ensures Kid(was[j], value.items[j], before + NodeRepr(n), this)
        ensures this !in NodeRepr(was[j]) && (was[j].Ref? ==> was[j].c != this)
      {
        KidWidens(was[j], value.items[j], before, before + NodeRepr(n), this);
      }
      KidApart(n, v, before + NodeRepr(n), this);
      body := Items(body.s[i := n]);
      value := List(value.items[i := v]);
      repr := repr + NodeRepr(n);
      assert forall j | 0 <= j < |body.s| :: Kid(body.s[j], value.items[j], repr, this);
      ItemsValid(body.s);
    }

    lemma ItemsValid(s: seq<Node>)
      requires body == Items(s) && this in repr && value.List? && |value.items| == |s|
      requires forall i | 0 <= i < |s| :: Kid(s[i], value.items[i], repr, this)
      requires forall i, j | 0 <= i < |s| && 0 <= j < |s| && i != j :: NodeRepr(s[i]) !! NodeRepr(s[j])
      ensures Valid()
    {
      hide Sound;
    }

    lemma FieldsAre()
      requires Valid() && body.Fields?
      ensures this in repr && value.Object? && value.fields.Keys == body.m.Keys
      ensures forall b | b in body.m :: Kid(body.m[b], value.fields[b], repr, this)
      ensures forall a, b | a in body.m && b in body.m && a != b :: NodeRepr(body.m[a]) !! NodeRepr(body.m[b])
    {
      hide Sound;
    }

    lemma ItemsAre()
      requires Valid() && body.Items?
      ensures this in repr && value.List? && |value.items| == |body.s|
      ensures forall i | 0 <= i < |body.s| :: Kid(body.s[i], value.items[i], repr, this)
      ensures forall i, j | 0 <= i < |body.s| && 0 <= j < |body.s| && i != j ::
                NodeRepr(body.s[i]) !! NodeRepr(body.s[j])
    {
      hide Sound;
    }

    /** The edit, one container of the path at a time; a refused one leaves every container alone. */
    method Set(lib: Library, segs: seq<Line>, text: Line) returns (ok: bool)
      requires Valid() && segs != []
      modifies repr
      ensures Valid() && fresh(repr - old(repr))
      ensures match Patch.Set(lib, old(value), segs, text)
              case Ok(v) => ok && value == v
              case Err => !ok && value == old(value) && unchanged(old(repr))
      decreases |segs|, 1
    {
      hide Sound, Valid, Kid, Coerce, Patch.Set;
      match body {
        case Fields(m) => ok := SetField(lib, segs, text);
        case Items(s) => ok := SetItem(lib, segs, text);
      }
    }

    method SetField(lib: Library, segs: seq<Line>, text: Line) returns (ok: bool)
      requires Valid() && segs != [] && body.Fields?
      modifies repr
      ensures Valid() && fresh(repr - old(repr))
      ensures match Patch.Set(lib, old(value), segs, text)
              case Ok(v) => ok && value == v
              case Err => !ok && value == old(value) && unchanged(old(repr))
      decreases |segs|, 0
    {
      hide Sound, Valid, Coerce, Patch.Set;
      FieldsAre();
      var m, k := body.m, segs[0];
      FieldEdit(lib, value, segs, text);
      if k !in m {
        return false;
      }
      ghost var was := value.fields[k];
      var n := Edit(lib, m[k], segs[1..], text);
      if n.None? {
        return false;
      }
      PutField(k, n.value, Edited(lib, was, segs[1..], text).value);
      return true;
    }

    method SetItem(lib: Library, segs: seq<Line>, text: Line) returns (ok: bool)
      requires Valid() && segs != [] && body.Items?
      modifies repr
      ensures Valid() && fresh(repr - old(repr))
      ensures match Patch.Set(lib, old(value), segs, text)
              case Ok(v) => ok && value == v
              case Err => !ok && value == old(value) && unchanged(old(repr))
      decreases |segs|, 0
    {
      hide Sound, Valid, Coerce, Patch.Set, Index;
      ItemsAre();
      var s := body.s;
      var i := Index(segs[0], |s|);
      ItemEdit(lib, value, segs, text);
      if i.None? {
        return false;
      }
      ghost var was := value.items[i.value];
      var n := Edit(lib, s[i.value], segs[1..], text);
      if n.None? {
        return false;
      }
      PutItem(i.value, n.value, Edited(lib, was, segs[1..], text).value);
      return true;
    }
  }

  /** The heap tree the JSON library hands over for a value: all of it new. */
  method Build(v: Json) returns (n: Node)
    ensures Sound(n) && NodeValue(n) == v && (n.Ref? ==> n.c in n.c.repr) && fresh(NodeRepr(n))
    decreases v, 3, 0
  {
    hide Container.Valid, Kid;
    match v {
      case Object(fields) => n := BuildFields(v);
      case List(items) => n := BuildItems(v);
      case _ => n := Plain(v);
    }
  }

  method BuildItems(v: Json) returns (n: Node)
    requires v.List?
    ensures Sound(n) && NodeValue(n) == v && (n.Ref? ==> n.c in n.c.repr) && fresh(NodeRepr(n))
    decreases v, 0, 0
  {
    hide Sound, Container.Valid;
    var s: seq<Node> := [];
    ghost var all: set<Container> := {};
    for i := 0 to |v.items|
      invariant |s| == i && fresh(all)
      invariant forall j | 0 <= j < i :: Sound(s[j]) && NodeValue(s[j]) == v.items[j] && NodeRepr(s[j]) <= all
      invariant forall j | 0 <= j < i && s[j].Ref? :: s[j].c in s[j].c.repr
      invariant forall a, b | 0 <= a < i && 0 <= b < i && a != b :: NodeRepr(s[a]) !! NodeRepr(s[b])
    {
      var x := Build(v.items[i]);
      assert NodeRepr(x) !! all;
      s := s + [x];
      all := all + NodeRepr(x);
    }
    var c := new Container(Items(s), v, all);
    c.ItemsValid(s);
    n := Ref(c);
    RefSound(c);
  }

  /** The nodes are trees of the values under the same keys, inside `all` and apart. */
  ghost predicate Grown(m: map<Line, Node>, fields: map<Line, Json>, all: set<Container>)
    reads all, set k | k in m && m[k].Ref? :: m[k].c, set k, o | k in m && m[k].Ref? && o in m[k].c.repr :: o
  {
    && m.Keys <= fields.Keys
    && (forall k | k in m :: Sound(m[k]) && NodeValue(m[k]) == fields[k] && NodeRepr(m[k]) <= all)
    && (forall k | k in m && m[k].Ref? :: m[k].c in m[k].c.repr)
    && (forall a, b | a in m && b in m && a != b :: NodeRepr(m[a]) !! NodeRepr(m[b]))
  }

  lemma Grow(m: map<Line, Node>, fields: map<Line, Json>, all: set<Container>, k: Line, x: Node)
    requires Grown(m, fields, all) && k in fields && k !in m
    requires Sound(x) && NodeValue(x) == fields[k] && (x.Ref? ==> x.c in x.c.repr) && NodeRepr(x) !! all
    ensures Grown(m[k := x], fields, all + NodeRepr(x))
  {
    hide Sound;
  }

  method BuildFields(v: Json) returns (n: Node)
    requires v.Object?
    ensures Sound(n) && NodeValue(n) == v && (n.Ref? ==> n.c in n.c.repr) && fresh(NodeRepr(n))
    decreases v, 2, 0
  {
    hide Sound, Container.Valid, Grown, Kid, NodeValue, Flat;
    var m, all := GrowAll(v, v.fields.Keys);
    n := Plant(v, m, all);
  }

  /** The trees of the fields named in `rest`, in whatever order they come. */
  method GrowAll(v: Json, rest: set<Line>) returns (m: map<Line, Node>, ghost all: set<Container>)
    requires v.Object? && rest <= v.fields.Keys
    ensures m.Keys == rest && Grown(m, v.fields, all) && fresh(all)
    decreases v, 1, |rest|
  {
    hide Sound, Container.Valid, Grown, Kid, NodeRepr, NodeValue, Flat;
    if rest == {} {
      NoneGrown(v.fields);
      return map[], {};
    }
    var k :| k in rest;
    m, all := GrowAll(v, rest - {k});
    m, all := GrowOne(v, m, all, k);
  }

  method GrowOne(v: Json, m: map<Line, Node>, ghost all: set<Container>, k: Line)
    returns (grown: map<Line, Node>, ghost more: set<Container>)
    requires v.Object? && Grown(m, v.fields, all) && k in v.fields && k !in m
    ensures grown.Keys == m.Keys + {k} && Grown(grown, v.fields, more) && fresh(more - all)
    decreases v, 0, 0
  {
    hide Sound, Container.Valid, Grown;
    var x := Build(v.fields[k]);
    assert NodeRepr(x) !! all;
    Grow(m, v.fields, all, k, x);
    return m[k := x], all + NodeRepr(x);
  }

  lemma NoneGrown(fields: map<Line, Json>)
    ensures Grown(map[], fields, {})
  {
  }

  method Plant(v: Json, m: map<Line, Node>, ghost all: set<Container>) returns (n: Node)
    requires v.Object? && Grown(m, v.fields, all) && m.Keys == v.fields.Keys
    ensures Sound(n) && NodeValue(n) == v && n.Ref? && n.c.repr == all + {n.c} && fresh(n.c)
  {
    hide Sound, Container.Valid, Flat;
    var c := new Container(Fields(m), v, all);
    c.FieldsValid(m);
    n := Ref(c);
    RefSound(c);
  }

  lemma RefSound(c: Container)
    requires c.Valid()
    ensures Sound(Ref(c)) && c in c.repr
  {
  }

  /** What an edit below a child makes of it. */
  function Edited(lib: Library, was: Json, rest: seq<Line>, text: Line): Result<Json> {
    if rest == [] then Coerce(lib, text, was) else Patch.Set(lib, was, rest, text)
  }

  lemma FieldEdit(lib: Library, node: Json, segs: seq<Line>, text: Line)
    requires node.Object? && segs != []
    ensures
      Patch.Set(lib, node, segs, text)
      == if segs[0] !in node.fields then Err
         else
           match Edited(lib, node.fields[segs[0]], segs[1..], text)
           case Err => Err
           case Ok(v) => Ok(Object(node.fields[segs[0] := v]))
  {
    hide Coerce;
  }

  lemma ItemEdit(lib: Library, node: Json, segs: seq<Line>, text: Line)
    requires node.List? && segs != []
    ensures
      Patch.Set(lib, node, segs, text)
      == match Index(segs[0], |node.items|)
         case None => Err
         case Some(i) =>
           match Edited(lib, node.items[i], segs[1..], text)
           case Err => Err
           case Ok(v) => Ok(List(node.items[i := v]))
  {
    hide Coerce, Index;
  }

  /** A value of the node's type; `Coerce` asks for no more. */
  method Sample(n: Node) returns (v: Json)
    requires Sound(n)
    ensures Kind(v) == Kind(NodeValue(n))
  {
    return if n.Plain? then n.v else if n.c.body.Fields? then Object(map[]) else List([]);
  }

  lemma FlatHasNoChild(lib: Library, v: Json, rest: seq<Line>, text: Line)
    requires Flat(v) && rest != []
    ensures Patch.Set(lib, v, rest, text) == Err
  {
  }

  /** The child's part of the edit: new text at the end of the path, or the next container. */
  method Edit(lib: Library, n: Node, rest: seq<Line>, text: Line) returns (r: Option<Node>)
    requires Sound(n)
    modifies NodeRepr(n)
    ensures match Edited(lib, old(NodeValue(n)), rest, text)
            case Ok(v) =>
              && r.Some? && Sound(r.value) && NodeValue(r.value) == v
              && (r.value.Ref? ==> r.value.c in r.value.c.repr) && fresh(NodeRepr(r.value) - old(NodeRepr(n)))
            case Err => r.None? && unchanged(old(NodeRepr(n)))
    decreases |rest|, 2
  {
    hide Container.Valid, Kid, Coerce, Patch.Set, Kind;
    if rest == [] {
      var sample := Sample(n);
      CoerceByKind(lib, text, sample, NodeValue(n));
      var parsed := Coerce(lib, text, sample);
      if parsed.Err? {
        return None;
      }
      var x := Build(parsed.value);
      return Some(x);
    }
    if n.Plain? {
      FlatHasNoChild(lib, n.v, rest, text);
      return None;
    }
    var ok := n.c.Set(lib, rest, text);
    if !ok {
      return None;
    }
    RefSound(n.c);
    return Some(n);
  }

  // ----- the command

  /** The value a tree stands for, read back off it. */
  method Marshal(n: Node) returns (v: Json)
    requires Sound(n) && (n.Ref? ==> n.c in n.c.repr)
    ensures v == NodeValue(n)
    decreases NodeRepr(n)
  {
    hide Sound, Kid;
    if n.Plain? {
      return n.v;
    }
    var c := n.c;
    RefValid(n);
    match c.body {
      case Fields(m) => v := MarshalFields(c, m);
      case Items(s) => v := MarshalItems(c, s);
    }
  }

  lemma RefValid(n: Node)
    requires Sound(n) && n.Ref?
    ensures n.c.Valid()
  {
  }

  method MarshalItems(c: Container, s: seq<Node>) returns (v: Json)
    requires c.Valid() && c.body == Items(s)
    ensures v == c.value
    decreases c.repr, 0
  {
    hide Sound, Container.Valid;
    c.ItemsAre();
    var items: seq<Json> := [];
    for i := 0 to |s|
      invariant items == c.value.items[..i]
    {
      var x := Marshal(s[i]);
      items := items + [x];
    }
    return List(items);
  }

  method MarshalFields(c: Container, m: map<Line, Node>) returns (v: Json)
    requires c.Valid() && c.body == Fields(m)
    ensures v == c.value
    decreases c.repr, 1
  {
    hide Sound, Container.Valid, Kid, NodeRepr;
    c.FieldsAre();
    var fields: map<Line, Json> := map[];
    var rest := m.Keys;
    while rest != {}
      invariant rest <= m.Keys && fields.Keys == m.Keys - rest
      invariant forall k | k in fields :: fields[k] == c.value.fields[k]
      decreases |rest|
    {
      var k :| k in rest;
      var x := MarshalField(c, m, k);
      fields := fields[k := x];
      rest := rest - {k};
    }
    assert fields == c.value.fields;
    return Object(fields);
  }

  method MarshalField(c: Container, m: map<Line, Node>, k: Line) returns (v: Json)
    requires c.Valid() && c.body == Fields(m) && k in m
    ensures c.value.Object? && k in c.value.fields && v == c.value.fields[k]
    decreases c.repr, 0
  {
    hide Sound, Container.Valid;
    c.FieldsAre();
    v := Marshal(m[k]);
  }

  /** Parse, rewrite in place along the path, print; parsing and printing text are the library's. */
  method SetDocument(lib: Library, doc: Json, path: Line, text: Line) returns (r: Result<Json>)
    ensures r == SetPath(lib, doc, path, text)
  {
    hide Sound, Patch.Set, Segments;
    if path == [] {
      return Err;
    }
    var root := Build(doc);
    var edited := Edit(lib, root, Segments(path), text);
    if edited.None? {
      return Err;
    }
    var out := Marshal(edited.value);
    return Ok(out);
  }
}
