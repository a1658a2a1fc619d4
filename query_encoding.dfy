/**
 * `Bitdb.encoding` (index.js): before a query is sent, every leaf string of its `find`
 * or `aggregate` tree is rewritten. A `0x` prefix marks a hex literal and is removed; the
 * leaf's governing field is its own key, or, for an operator key such as `$in` or an
 * array index, the nearest enclosing `b<digits>` key; an explicit schema entry for that
 * field names the encoding the literal is written in; and a leaf governed by a
 * `b<digits>` field is replaced by the base64 text of its bytes, as the store keeps them.
 *
 * The tree is a value and the parent chain an explicit path of keys from the root.
 */
module QueryEncoding {
  import opened Wrappers
  import opened Codec

  /** A query tree: string leaves, objects (keys in order) and arrays. */
  datatype Json = Str(text: string) | Obj(members: seq<Member>) | Arr(items: seq<Json>)

  datatype Member = Member(key: string, value: Json)

  /** The key of a node below its parent: an object key, or an array index (which traverse gives as its digits). */
  datatype Step = Field(name: string) | Index(i: nat)

  /** The keys from the root down to a node; the root itself has no key. */
  type Path = seq<Step>

  /** An encoding schema: field name to the encoding its literals are written in. */
  type Schema = map<string, Enc>

  predicate IsDigit(c: char)
  {
    '0' <= c <= '9'
  }

  /** `/^([0-9]+|\$)/`: an array index or an operator such as `$in`, which the climb skips. */
  predicate IsDirective(k: Step)
  {
    match k
    case Index(_) => true
    case Field(name) => |name| > 0 && (IsDigit(name[0]) || name[0] == '$')
  }

  /** `/^b[0-9]+/`: the name of a binary field, which the store keeps as base64. */
  predicate IsBaseName(name: string)
  {
    |name| >= 2 && name[0] == 'b' && IsDigit(name[1])
  }

  predicate IsBaseKey(k: Step)
  {
    k.Field? && IsBaseName(k.name)
  }

  /** The deepest base field among the first n keys of path. */
  function NearestBase(path: Path, n: nat): (r: Option<string>)
    requires n <= |path|
    ensures r.None? <==> forall j :: 0 <= j < n ==> !IsBaseKey(path[j])
    ensures r.Some? ==> exists j :: 0 <= j < n && path[j] == Field(r.value) && IsBaseName(r.value)
                                 && forall k :: j < k < n ==> !IsBaseKey(path[k])
  {
    if n == 0 then None
    else if IsBaseKey(path[n - 1]) then Some(path[n - 1].name)
    else NearestBase(path, n - 1)
  }

  /**
   * The field that governs the leaf at the end of path (index.js:63-71): its own key,
   * unless that key is a directive, in which case the nearest base field above it.
   * None when the leaf is the root or the climb reaches the root.
   */
  function GoverningKey(path: Path): (g: Option<string>)
    ensures path == [] ==> g.None?
    ensures g.Some? ==> exists j :: 0 <= j < |path| && path[j] == Field(g.value)
    ensures g.Some? && IsDirective(path[|path| - 1]) ==> IsBaseName(g.value)
  {
    if path == [] then None
    else if !IsDirective(path[|path| - 1]) then Some(path[|path| - 1].name)
    else NearestBase(path, |path| - 1)
  }

  /** `/^0x/i`: the marker of a hex literal. */
  predicate HasHexPrefix(x: string)
  {
    |x| >= 2 && x[0] == '0' && (x[1] == 'x' || x[1] == 'X')
  }

  /** The literal with its hex marker removed. */
  function Token(x: string): string
  {
    if HasHexPrefix(x) then x[2..] else x
  }

  /** The encoding the literal's form suggests: hex with the marker, utf8 without. */
  function SniffedEncoding(x: string): Enc
  {
    if HasHexPrefix(x) then Hex else Utf8
  }

  /** The encoding the token is read in: the schema's entry for the governing field, else the sniffed one. */
  function InputEncoding(path: Path, x: string, schema: Schema): (e: Enc)
    ensures GoverningKey(path).Some? && GoverningKey(path).value in schema ==> e == schema[GoverningKey(path).value]
    ensures GoverningKey(path).None? || GoverningKey(path).value !in schema ==>
      (e == Hex <==> HasHexPrefix(x)) && (e == Hex || e == Utf8)
  {
    var g := GoverningKey(path);
    if g.Some? && g.value in schema then schema[g.value] else SniffedEncoding(x)
  }

  /** True when a base field governs the leaf, so its value is stored as base64. */
  predicate IsBinaryLeaf(path: Path)
  {
    var g := GoverningKey(path);
    g.Some? && IsBaseName(g.value)
  }

  /** What the leaf x at the end of path becomes. */
  function LeafImage(path: Path, x: string, schema: Schema): (r: string)
    ensures IsBinaryLeaf(path) ==> |r| % 4 == 0
    ensures !IsBinaryLeaf(path) ==> r == Token(x)
  {
    if IsBinaryLeaf(path) then
      var b := ToBytes(Token(x), InputEncoding(path, x, schema));
      Base64Padded(b);
      Base64Encode(b)
    else Token(x)
  }

  /** The tree with every leaf replaced by its image; `at` is the path of its root. */
  function Transform(t: Json, at: Path, schema: Schema): (r: Json)
    ensures t.Str? <==> r.Str?
    ensures t.Arr? ==> r.Arr? && |r.items| == |t.items|
    ensures t.Obj? ==> r.Obj? && |r.members| == |t.members|
  {
    match t
    case Str(x) => Str(LeafImage(at, x, schema))
    case Arr(items) =>
      Arr(seq(|items|, i requires 0 <= i < |items| => Transform(items[i], at + [Index(i)], schema)))
    case Obj(ms) =>
      Obj(seq(|ms|, i requires 0 <= i < |ms| => Member(ms[i].key, Transform(ms[i].value, at + [Field(ms[i].key)], schema))))
  }

  // ---------------------------------------------------------------------------
  // The walk, as index.js runs it

  /**
   * The climb of index.js:63-71: from the leaf, when its key is a directive, move to the
   * parent until a base key is found or the root is reached. `depth` is the depth of the
   * current node, whose key is path[depth - 1].
   */
  method Govern(path: Path) returns (g: Option<string>)
    ensures g == GoverningKey(path)
  {
    if |path| == 0 {
      return None;
    }
    var depth := |path|;
    if IsDirective(path[depth - 1]) {
      while depth > 0
        invariant 0 <= depth <= |path|
        invariant 0 < depth < |path| ==> !IsBaseKey(path[depth - 1])
        invariant depth < |path| ==> NearestBase(path, |path| - 1) == NearestBase(path, depth)
      {
        depth := depth - 1;
        if depth > 0 && IsBaseKey(path[depth - 1]) {
          break;
        }
      }
    }
    if 0 < depth < |path| {
      assert NearestBase(path, depth) == Some(path[depth - 1].name);
    }
    g := if depth == 0 then None else Some(path[depth - 1].name);
  }

  /** The callback of index.js:52-81 for one leaf: sniff, climb, consult the schema, convert. */
  method EncodeLeaf(path: Path, x: string, schema: Schema) returns (newVal: string)
    ensures newVal == LeafImage(path, x, schema)
  {
    var encoding := Utf8;
    var token := x;
    if HasHexPrefix(x) {
      encoding := Hex;
      token := x[2..];
    }
    newVal := token;
    var node := Govern(path);
    if node.Some? && node.value in schema {
      encoding := schema[node.value];
    }
    if node.Some? && IsBaseName(node.value) {
      newVal := Base64Encode(ToBytes(token, encoding));
    }
  }

  /** `traverse(subtree).forEach(...)`: visits every node below t and replaces each leaf by its image. */
  method EncodeTree(t: Json, at: Path, schema: Schema) returns (r: Json)
    ensures r == Transform(t, at, schema)
    decreases t, 1
  {
    match t
    case Str(x) =>
      var v := EncodeLeaf(at, x, schema);
      r := Str(v);
    case Arr(items) =>
      var out := EncodeItems(items, at, schema);
      r := Arr(out);
    case Obj(ms) =>
      var out := EncodeMembers(ms, at, schema);
      r := Obj(out);
  }

  /** The walk over the elements of an array, in index order. */
  method EncodeItems(items: seq<Json>, at: Path, schema: Schema) returns (out: seq<Json>)
    ensures out == seq(|items|, i requires 0 <= i < |items| => Transform(items[i], at + [Index(i)], schema))
    decreases Arr(items), 0
  {
    out := [];
    var i := 0;
    while i < |items|
      invariant 0 <= i <= |items| && |out| == i
      invariant forall k :: 0 <= k < i ==> out[k] == Transform(items[k], at + [Index(k)], schema)
    {
      var v := EncodeTree(items[i], at + [Index(i)], schema);
      out := out + [v];
      assert out[i] == Transform(items[i], at + [Index(i)], schema);
      i := i + 1;
    }
  }

  /** The walk over the members of an object, in key order. */
  method EncodeMembers(ms: seq<Member>, at: Path, schema: Schema) returns (out: seq<Member>)
    ensures out == seq(|ms|, i requires 0 <= i < |ms| => Member(ms[i].key, Transform(ms[i].value, at + [Field(ms[i].key)], schema)))
    decreases Obj(ms), 0
  {
    out := [];
    var i := 0;
    while i < |ms|
      invariant 0 <= i <= |ms| && |out| == i
      invariant forall k :: 0 <= k < i ==>
        out[k] == Member(ms[k].key, Transform(ms[k].value, at + [Field(ms[k].key)], schema))
    {
      var m := ms[i];
      assert m in ms;
      var v := EncodeTree(m.value, at + [Field(m.key)], schema);
      out := out + [Member(m.key, v)];
      i := i + 1;
    }
    assert |out| == |ms|;
  }

  // ---------------------------------------------------------------------------
  // Structure is kept; only leaves change

  /** Same keys in the same order, same array lengths, same nesting; leaves may differ. */
  predicate SameShape(a: Json, b: Json)
  {
    match a
    case Str(_) => b.Str?
    case Arr(xs) =>
      b.Arr? && |xs| == |b.items| && forall i :: 0 <= i < |xs| ==> SameShape(xs[i], b.items[i])
    case Obj(ms) =>
      b.Obj? && |ms| == |b.members|
      && forall i :: 0 <= i < |ms| ==> ms[i].key == b.members[i].key && SameShape(ms[i].value, b.members[i].value)
  }

  lemma {:induction false} TransformKeepsShape(t: Json, at: Path, schema: Schema)
    ensures SameShape(t, Transform(t, at, schema))
    decreases t
  {
    match t
    case Str(_) =>
    case Arr(items) =>
      forall i | 0 <= i < |items|
        ensures SameShape(items[i], Transform(t, at, schema).items[i])
      {
        TransformKeepsShape(items[i], at + [Index(i)], schema);
      }
    case Obj(ms) =>
      forall i | 0 <= i < |ms|
        ensures SameShape(ms[i].value, Transform(t, at, schema).members[i].value)
      {
        assert ms[i] in ms;
        TransformKeepsShape(ms[i].value, at + [Field(ms[i].key)], schema);
      }
  }

  /** A leaf string and the path from the root to it. */
  datatype Leaf = Leaf(path: Path, text: string)

  /** The leaves of t in the order traverse visits them (depth first, children in order). */
  function Leaves(t: Json, at: Path): seq<Leaf>
  {
    match t
    case Str(x) => [Leaf(at, x)]
    case Arr(items) =>
      Flatten(seq(|items|, i requires 0 <= i < |items| => Leaves(items[i], at + [Index(i)])))
    case Obj(ms) =>
      Flatten(seq(|ms|, i requires 0 <= i < |ms| => Leaves(ms[i].value, at + [Field(ms[i].key)])))
  }

  function Flatten(ss: seq<seq<Leaf>>): seq<Leaf>
  {
    if ss == [] then [] else ss[0] + Flatten(ss[1..])
  }

  /** The leaf replaced by its image, at the same path. */
  function Image(l: Leaf, schema: Schema): Leaf
  {
    Leaf(l.path, LeafImage(l.path, l.text, schema))
  }

  function ImageOf(schema: Schema): Leaf -> Leaf
  {
    l => Image(l, schema)
  }

  /** Each leaf replaced by its image, at the same path. */
  function Rewritten(ls: seq<Leaf>, schema: Schema): seq<Leaf>
  {
    Mapped(ls, ImageOf(schema))
  }

  function Mapped(ls: seq<Leaf>, f: Leaf -> Leaf): seq<Leaf>
  {
    if ls == [] then [] else [f(ls[0])] + Mapped(ls[1..], f)
  }

  lemma {:induction false} RewrittenFlatten(ss: seq<seq<Leaf>>, schema: Schema)
    ensures Flatten(seq(|ss|, i requires 0 <= i < |ss| => Rewritten(ss[i], schema))) == Rewritten(Flatten(ss), schema)
  {
    if ss != [] {
      var rs := seq(|ss|, i requires 0 <= i < |ss| => Rewritten(ss[i], schema));
      var tail := seq(|ss| - 1, i requires 0 <= i < |ss| - 1 => Rewritten(ss[1..][i], schema));
      assert rs[1..] == tail;
      RewrittenFlatten(ss[1..], schema);
      RewrittenAppend(ss[0], Flatten(ss[1..]), schema);
    }
  }

  lemma RewrittenAppend(a: seq<Leaf>, b: seq<Leaf>, schema: Schema)
    ensures Rewritten(a + b, schema) == Rewritten(a, schema) + Rewritten(b, schema)
  {
    MappedAppend(a, b, ImageOf(schema));
  }

  lemma {:induction false} MappedAppend(a: seq<Leaf>, b: seq<Leaf>, f: Leaf -> Leaf)
    ensures Mapped(a + b, f) == Mapped(a, f) + Mapped(b, f)
  {
    if a == [] {
      assert a + b == b;
    } else {
      assert (a + b)[0] == a[0] && (a + b)[1..] == a[1..] + b;
      MappedAppend(a[1..], b, f);
    }
  }

  /**
   * The leaves after the walk are the leaves before it, in the same order and at the same
   * paths, each replaced by its image: nothing but leaf values changes.
   */
  lemma {:induction false} TransformRewritesLeaves(t: Json, at: Path, schema: Schema)
    ensures Leaves(Transform(t, at, schema), at) == Rewritten(Leaves(t, at), schema)
    decreases t
  {
    match t
    case Str(x) =>
      assert Mapped([Leaf(at, x)], ImageOf(schema)) == [Image(Leaf(at, x), schema)];
    case Arr(items) =>
      var ss := seq(|items|, i requires 0 <= i < |items| => Leaves(items[i], at + [Index(i)]));
      var out := Transform(t, at, schema).items;
      forall i | 0 <= i < |items|
        ensures Leaves(out[i], at + [Index(i)]) == Rewritten(ss[i], schema)
      {
        TransformRewritesLeaves(items[i], at + [Index(i)], schema);
      }
      assert seq(|out|, i requires 0 <= i < |out| => Leaves(out[i], at + [Index(i)]))
          == seq(|ss|, i requires 0 <= i < |ss| => Rewritten(ss[i], schema));
      RewrittenFlatten(ss, schema);
    case Obj(ms) =>
      var ss := seq(|ms|, i requires 0 <= i < |ms| => Leaves(ms[i].value, at + [Field(ms[i].key)]));
      var out := Transform(t, at, schema).members;
      forall i | 0 <= i < |ms|
        ensures Leaves(out[i].value, at + [Field(out[i].key)]) == Rewritten(ss[i], schema)
      {
        assert ms[i] in ms;
        TransformRewritesLeaves(ms[i].value, at + [Field(ms[i].key)], schema);
      }
      assert seq(|out|, i requires 0 <= i < |out| => Leaves(out[i].value, at + [Field(out[i].key)]))
          == seq(|ss|, i requires 0 <= i < |ss| => Rewritten(ss[i], schema));
      RewrittenFlatten(ss, schema);
  }

  /**
   * What `Bitdb.encoding(subtree, schema)` leaves in the caller's tree. traverse writes each
   * new leaf through its parent; a root that is itself a string has no parent, so the
   * caller's value stays as it was. Any other root keeps its shape and has every leaf
   * rewritten.
   */
  function EncodeRoot(t: Json, schema: Schema): (r: Json)
    ensures t.Str? ==> r == t
    ensures !t.Str? ==> !r.Str? && SameShape(t, r) && Leaves(r, []) == Rewritten(Leaves(t, []), schema)
  {
    if t.Str? then t
    else
      TransformKeepsShape(t, [], schema);
      TransformRewritesLeaves(t, [], schema);
      Transform(t, [], schema)
  }

  // ---------------------------------------------------------------------------
  // What each leaf becomes

  /**
   * The governing field (index.js:63-71): a leaf under an ordinary key is governed by that
   * key, even one such as `s1`; a leaf under a directive is governed by the nearest base
   * field above it, with no base field in between, and by nothing when there is none.
   */
  lemma GoverningKeyRules(path: Path)
    requires path != []
    ensures var leaf := path[|path| - 1];
      && (!IsDirective(leaf) ==> GoverningKey(path) == Some(leaf.name))
      && (IsDirective(leaf) ==>
            (GoverningKey(path).None? <==> forall j :: 0 <= j < |path| - 1 ==> !IsBaseKey(path[j])))
      && (IsDirective(leaf) && GoverningKey(path).Some? ==>
            exists j :: 0 <= j < |path| - 1 && path[j] == Field(GoverningKey(path).value)
                        && IsBaseName(GoverningKey(path).value)
                        && forall k :: j < k < |path| - 1 ==> !IsBaseKey(path[k]))
  {
  }

  /**
   * A `0x` or `0X` literal always loses its marker, whatever governs it (index.js:55-59);
   * it is read as hex unless the schema names another encoding for its governing field.
   */
  lemma HexMarkerStripped(path: Path, t: string, schema: Schema, x: char)
    requires x == 'x' || x == 'X'
    ensures var lit := ['0', x] + t;
      var g := GoverningKey(path);
      && InputEncoding(path, lit, schema) == (if g.Some? && g.value in schema then schema[g.value] else Hex)
      && LeafImage(path, lit, schema)
         == if IsBinaryLeaf(path) then Base64Encode(ToBytes(t, InputEncoding(path, lit, schema))) else t
  {
    assert (['0', x] + t)[2..] == t;
  }

  /** A literal without the marker is kept whole and read as utf8 unless the schema says otherwise. */
  lemma PlainLiteralKept(path: Path, lit: string, schema: Schema)
    requires !HasHexPrefix(lit)
    ensures var g := GoverningKey(path);
      && InputEncoding(path, lit, schema) == (if g.Some? && g.value in schema then schema[g.value] else Utf8)
      && LeafImage(path, lit, schema)
         == if IsBinaryLeaf(path) then Base64Encode(ToBytes(lit, InputEncoding(path, lit, schema))) else lit
  {
  }

  /**
   * A leaf under a base field becomes exactly the base64 text of the token's bytes in the
   * chosen encoding, so decoding it gives those bytes back; any other leaf becomes its
   * token unchanged (index.js:77-80).
   */
  lemma LeafImageMeaning(path: Path, x: string, schema: Schema)
    ensures IsBinaryLeaf(path) ==>
      Base64Decode(LeafImage(path, x, schema)) == ToBytes(Token(x), InputEncoding(path, x, schema))
    ensures !IsBinaryLeaf(path) ==> LeafImage(path, x, schema) == Token(x)
  {
    if IsBinaryLeaf(path) {
      Base64RoundTrip(ToBytes(Token(x), InputEncoding(path, x, schema)));
    }
  }

  /** The query of the example application (app.js), `{b1: {$in: ["6d02", "6d0c"]}}`. */
  const AppQuery: Json := Obj([Member("b1", Obj([Member("$in", Arr([Str("6d02"), Str("6d0c")]))]))])

  /** Both elements of the example's `$in` array are governed by `b1`. */
  lemma AppGoverningKey(i: nat)
    ensures GoverningKey([Field("b1"), Field("$in"), Index(i)]) == Some("b1")
  {
    var p := [Field("b1"), Field("$in"), Index(i)];
    assert IsBaseName("b1") && !IsBaseName("$in");
    assert NearestBase(p, 1) == Some("b1");
  }

  /** The bytes and base64 forms of the example's literals, as hex and as utf8. */
  lemma AppHexBytes()
    ensures Base64Encode(HexDecode("6d02")) == "bQI="
    ensures Base64Encode(HexDecode("6d0c")) == "bQw="
  {
    assert HexDecode("6d02") == [0x6d, 0x02];
    assert HexDecode("6d0c") == [0x6d, 0x0c];
  }

  lemma AppUtf8Bytes()
    ensures Utf8Encode("6d02") == [0x36, 0x64, 0x30, 0x32]
  {
    assert Utf8EncodeChar('6') == [0x36] && Utf8EncodeChar('d') == [0x64];
    assert Utf8EncodeChar('0') == [0x30] && Utf8EncodeChar('2') == [0x32];
    assert Utf8Encode("2") == [0x32];
    assert Utf8Encode("02") == [0x30, 0x32];
    assert Utf8Encode("d02") == [0x64, 0x30, 0x32];
  }

  lemma AppUtf8Base64()
    ensures Base64Encode(Utf8Encode("6d02")) == "NmQwMg=="
  {
    AppUtf8Bytes();
  }

  /** Under `{b1: "hex"}` the two literals of the example, below `b1` and `$in`, become base64 of two bytes each. */
  lemma AppLeafImages()
    ensures var schema := map["b1" := Hex];
      && LeafImage([Field("b1"), Field("$in"), Index(0)], "6d02", schema) == "bQI="
      && LeafImage([Field("b1"), Field("$in"), Index(1)], "6d0c", schema) == "bQw="
  {
    AppGoverningKey(0);
    AppGoverningKey(1);
    AppHexBytes();
  }

  /** The `$in` array of the example, below `b1`, becomes the two base64 literals. */
  lemma AppArray()
    ensures Transform(Arr([Str("6d02"), Str("6d0c")]), [Field("b1"), Field("$in")], map["b1" := Hex])
         == Arr([Str("bQI="), Str("bQw=")])
  {
    var at := [Field("b1"), Field("$in")];
    AppLeafImages();
    assert at + [Index(0)] == [Field("b1"), Field("$in"), Index(0)];
    assert at + [Index(1)] == [Field("b1"), Field("$in"), Index(1)];
    assert Transform(Arr([Str("6d02"), Str("6d0c")]), at, map["b1" := Hex]).items == [Str("bQI="), Str("bQw=")];
  }

  /** With the schema `{b1: "hex"}` of the example application (app.js), both literals become base64 of two bytes. */
  lemma AppExample()
    ensures Transform(AppQuery, [], map["b1" := Hex])
         == Obj([Member("b1", Obj([Member("$in", Arr([Str("bQI="), Str("bQw=")]))]))])
  {
    var schema := map["b1" := Hex];
    var arr := Arr([Str("6d02"), Str("6d0c")]);
    var at := [Field("b1"), Field("$in")];
    AppArray();
    var inner := Obj([Member("$in", arr)]);
    assert Transform(inner, [Field("b1")], schema).members == [Member("$in", Arr([Str("bQI="), Str("bQw=")]))] by {
      assert [Field("b1")] + [Field("$in")] == at;
    }
    assert Transform(AppQuery, [], schema).members == [Member("b1", Obj([Member("$in", Arr([Str("bQI="), Str("bQw=")]))]))] by {
      assert [] + [Field("b1")] == [Field("b1")];
    }
  }

  /**
   * The query object is rewritten where it lies, so a request passed to read a second time
   * is encoded again: under `{b1: "hex"}` the stored form "bQI=" of "6d02" is read as hex,
   * whose first pair "bQ" is not hex, and the literal becomes the empty string.
   */
  lemma EncodingTwiceLosesLiteral()
    ensures var p0, schema := [Field("b1"), Field("$in"), Index(0)], map["b1" := Hex];
      LeafImage(p0, LeafImage(p0, "6d02", schema), schema) == ""
  {
    AppLeafImages();
    assert !IsHexDigit('Q');
    assert HexDecode("bQI=") == [];
    assert Base64Encode([]) == "";
  }

  /** Without a schema the same literal has no marker, so it is read as utf8 text, not as hex. */
  lemma AppLiteralWithoutSchema()
    ensures LeafImage([Field("b1"), Field("$in"), Index(0)], "6d02", map[]) == "NmQwMg=="
  {
    AppGoverningKey(0);
    AppUtf8Base64();
  }
}
