/**
 * The Wavefront OBJ parser `parseOBJ` of GL/a.js as a transition system over
 * values: the parser's local variables form a `State`, each nested helper and
 * keyword handler is a function from one state to the next, and a handler
 * that would throw a TypeError yields `None`.
 *
 * The open `geometry` of the source is the last element of `geometries`
 * whenever `open` holds (it is pushed there when it is created and nothing
 * else is ever pushed), and `webglVertexData` is that geometry's `data`.
 */
module ObjModel {
  import opened Wrappers
  import opened JsNumber
  import opened JsText

  /** One pool entry: the numbers of one `v`, `vt` or `vn` line (or the colour part of a `v` line). */
  type Tuple = seq<Num>
  type Pool = seq<Tuple>

  datatype Attribute = Attribute(name: string, values: seq<Num>)

  datatype Geometry = Geometry(objectName: string, groups: seq<string>, material: string, data: seq<Attribute>)

  /** The keys of a geometry's `data`, in the order of a face reference's components. */
  const AttributeNames: seq<string> := ["position", "texcoord", "normal", "color"]

  /** The dummy coordinate the pools are seeded with. */
  const Zero: Num := Fin(0.0)

  predicate Shaped(data: seq<Attribute>) {
    |data| == 4 && forall i :: 0 <= i < 4 ==> data[i].name == AttributeNames[i]
  }

  /** The four empty working buffers of a geometry that has just been created. */
  function EmptyData(): (d: seq<Attribute>)
    ensures Shaped(d)
    ensures forall i :: 0 <= i < 4 ==> d[i].values == []
  {
    [Attribute("position", []), Attribute("texcoord", []), Attribute("normal", []), Attribute("color", [])]
  }

  datatype State = State(
    positions: Pool, texcoords: Pool, normals: Pool, colors: Pool,
    geometries: seq<Geometry>,
    open: bool,
    groups: seq<string>, material: string, objectName: string,
    materialLibs: seq<string>)
  {
    /** `objVertexData`: the pools, indexed like the components of a face reference. */
    function VertexData(): seq<Pool> {
      [positions, texcoords, normals, colors]
    }

    /** The open geometry is the last one created and still has its four working buffers. */
    predicate Valid() {
      open ==> |geometries| > 0 && Shaped(geometries[|geometries| - 1].data)
    }

    function Current(): Geometry
      requires open && |geometries| > 0
    {
      geometries[|geometries| - 1]
    }

    /** How many geometries are closed: all of them but the open one. */
    function Closed(): nat {
      if open && |geometries| > 0 then |geometries| - 1 else |geometries|
    }
  }

  /** The state `parseOBJ` starts from: every pool holds one dummy entry. */
  function Init(): (s: State)
    ensures s.Valid() && !s.open && s.geometries == [] && s.materialLibs == []
    ensures |s.positions| == |s.texcoords| == |s.normals| == |s.colors| == 1
    ensures |s.positions[0]| == 3 && |s.texcoords[0]| == 2 && |s.normals[0]| == 3 && |s.colors[0]| == 3
  {
    State([[Zero, Zero, Zero]], [[Zero, Zero]], [[Zero, Zero, Zero]], [[Zero, Zero, Zero]],
          [], false, ["default"], "default", "default", [])
  }

  // ---------------------------------------------------------------------------
  // the geometry lifecycle

  /** `newGeometry`: an open geometry that already holds positions is closed; otherwise nothing happens. */
  function NewGeometry(s: State): (t: State)
    requires s.Valid()
    ensures t.Valid()
    ensures t.open <==> s.open && s.Current().data[0].values == []
    ensures t == s.(open := t.open)
  {
    if s.open && |s.Current().data[0].values| > 0 then s.(open := false) else s
  }

  /**
   * `setGeometry`: when no geometry is open, a new one with empty buffers and
   * the current object, groups and material is appended and becomes the open one.
   */
  function SetGeometry(s: State): (t: State)
    requires s.Valid()
    ensures t.Valid() && t.open
    ensures t == s.(geometries := t.geometries, open := true)
    ensures s.open ==> t == s
    ensures !s.open ==> t.geometries == s.geometries + [Geometry(s.objectName, s.groups, s.material, EmptyData())]
  {
    if s.open then s
    else s.(geometries := s.geometries + [Geometry(s.objectName, s.groups, s.material, EmptyData())], open := true)
  }

  // ---------------------------------------------------------------------------
  // addVertex

  /** Appends `vals` to working buffer `i` of the open geometry. */
  function Append(s: State, i: nat, vals: seq<Num>): (t: State)
    requires s.Valid() && s.open && i < 4
    ensures t.Valid() && t.open && Grows(s, t)
    ensures t.Current().data[i].values == s.Current().data[i].values + vals
    ensures forall b :: 0 <= b < 4 && b != i ==> t.Current().data[b] == s.Current().data[b]
  {
    var g := s.Current();
    var h := g.(data := g.data[i := g.data[i].(values := g.data[i].values + vals)]);
    var t := s.(geometries := s.geometries[|s.geometries| - 1 := h]);
    assert t.geometries[..|s.geometries| - 1] == s.geometries[..|s.geometries| - 1];
    t
  }

  /**
   * `t` differs from `s` only in the open geometry's working buffers, and each
   * of those has only grown.
   */
  predicate Grows(s: State, t: State)
    requires s.Valid() && s.open
  {
    && t == s.(geometries := t.geometries)
    && |t.geometries| == |s.geometries|
    && t.geometries[..|s.geometries| - 1] == s.geometries[..|s.geometries| - 1]
    && var g, h := s.Current(), t.geometries[|s.geometries| - 1];
       && h.objectName == g.objectName && h.groups == g.groups && h.material == g.material
       && |h.data| == 4
       && forall i :: 0 <= i < 4 ==> h.data[i].name == g.data[i].name && g.data[i].values <= h.data[i].values
  }

  lemma GrowsTransitive(s: State, t: State, u: State)
    requires s.Valid() && s.open && t.Valid() && t.open
    requires Grows(s, t) && Grows(t, u)
    ensures Grows(s, u)
  {
    assert u.geometries[..|s.geometries| - 1] == t.geometries[..|s.geometries| - 1];
  }

  /** The array index a face component `k` denotes in a pool of length `len`: a negative one counts back from the end. */
  function ResolveIndex(k: int, len: nat): (index: int)
    ensures k >= 0 ==> index == k
    ensures k < 0 ==> index < len && (0 <= index <==> -k <= len)
    ensures k < 0 ==> len - index == -k
  {
    if k >= 0 then k else k + len
  }

  /**
   * The effect of a component that names entry `index` of pool `i`: that
   * entry is appended to buffer `i`, and for the position component the
   * colour entry at the same index is appended too once any colour has been
   * read. The source throws (spreading `undefined`) when the index is outside
   * the pool, or when that colour entry does not exist.
   */
  function AddEntry(s: State, i: nat, index: int): (r: Option<State>)
    requires s.Valid() && s.open && i < 4
    ensures r.Some? ==> r.value.Valid() && r.value.open && Grows(s, r.value)
  {
    var pool := s.VertexData()[i];
    if !(0 <= index < |pool|) then None
    else
      var t := Append(s, i, pool[index]);
      if i == 0 && |s.colors| > 1 then
        if index < |s.colors| then
          var u := Append(t, 3, s.colors[index]);
          assert Grows(s, u) by { GrowsTransitive(s, t, u); }
          Some(u)
        else None
      else Some(t)
  }

  /**
   * One iteration of the `forEach` in `addVertex`: component `i` of a face
   * reference. An empty component is skipped. Otherwise it is parsed and
   * resolved against pool `i` and the entry it names is added. The source
   * throws when the component is not a number and when `i` is 4 or more
   * (there is no fifth pool to index).
   */
  function AddComponent(s: State, i: nat, component: string): (r: Option<State>)
    requires s.Valid() && s.open
    ensures r.Some? ==> r.value.Valid() && r.value.open && Grows(s, r.value)
  {
    if component == "" then Some(s)
    else if i >= 4 then None
    else match ParseInt(component)
      case None => None
      case Some(k) => AddEntry(s, i, ResolveIndex(k, |s.VertexData()[i]|))
  }

  /** The components `i` .. of one face reference, in order. */
  function AddComponentsFrom(s: State, ptn: seq<string>, i: nat): (r: Option<State>)
    requires s.Valid() && s.open && i <= |ptn|
    ensures r.Some? ==> r.value.Valid() && r.value.open && Grows(s, r.value)
    decreases |ptn| - i
  {
    if i == |ptn| then Some(s)
    else match AddComponent(s, i, ptn[i])
      case None => None
      case Some(t) =>
        var r := AddComponentsFrom(t, ptn, i + 1);
        assert r.Some? ==> Grows(s, r.value) by {
          if r.Some? { GrowsTransitive(s, t, r.value); }
        }
        r
  }

  /** `addVertex(vert)`: the reference is split on `/` and each component added in turn. */
  function AddVertex(s: State, vert: string): (r: Option<State>)
    requires s.Valid() && s.open
    ensures r.Some? ==> r.value.Valid() && r.value.open && Grows(s, r.value)
  {
    AddComponentsFrom(s, Split(vert, '/'), 0)
  }

  /** `addVertex` on each reference in turn; the first one that throws ends the parse. */
  function AddVertices(s: State, verts: seq<string>): (r: Option<State>)
    requires s.Valid() && s.open
    ensures r.Some? ==> r.value.Valid() && r.value.open && Grows(s, r.value)
    decreases |verts|
  {
    if verts == [] then Some(s)
    else match AddVertex(s, verts[0])
      case None => None
      case Some(t) =>
        var r := AddVertices(t, verts[1..]);
        assert r.Some? ==> Grows(s, r.value) by {
          if r.Some? { GrowsTransitive(s, t, r.value); }
        }
        r
  }

  // ---------------------------------------------------------------------------
  // faces

  /** Once the first reference is added, the rest are added to the state it leaves. */
  lemma AddVerticesCons(s: State, verts: seq<string>, t: State)
    requires s.Valid() && s.open && verts != [] && AddVertex(s, verts[0]) == Some(t)
    ensures AddVertices(s, verts) == AddVertices(t, verts[1..])
  {
  }

  /** A reference that throws ends the face. */
  lemma AddVerticesStops(s: State, verts: seq<string>)
    requires s.Valid() && s.open && verts != [] && AddVertex(s, verts[0]).None?
    ensures AddVertices(s, verts).None?
  {
  }

  /** `numTriangles`: negative or zero when the face has fewer than three references. */
  function NumTriangles(parts: seq<string>): int {
    |parts| - 2
  }

  /** The references handed to `addVertex` for triangles `tri` .. `count - 1`, in call order. */
  function FanFrom(parts: seq<string>, tri: nat, count: nat): (r: seq<string>)
    requires count <= |parts| - 2 || count == 0
    ensures |r| > 0 ==> |parts| >= 3
    ensures |r| % 3 == 0
    ensures forall k :: 0 <= k < |r| && k % 3 == 0 ==> r[k] == parts[0]
    decreases count - tri
  {
    if tri >= count then [] else [parts[0], parts[tri + 1], parts[tri + 2]] + FanFrom(parts, tri + 1, count)
  }

  /** Every reference `addVertex` sees for one `f` line, in call order. */
  function Fan(parts: seq<string>): (r: seq<string>)
    ensures |parts| < 3 ==> r == []
    ensures |r| > 0 ==> |parts| >= 3
    ensures |r| % 3 == 0
    ensures forall k :: 0 <= k < |r| && k % 3 == 0 ==> r[k] == parts[0]
  {
    FanFrom(parts, 0, if NumTriangles(parts) > 0 then NumTriangles(parts) else 0)
  }

  /** The `f` handler: open a geometry if none is, then fan-triangulate around the first reference. */
  function Face(s: State, parts: seq<string>): (r: Option<State>)
    requires s.Valid()
    ensures r.Some? ==> r.value.Valid() && r.value.open
  {
    AddVertices(SetGeometry(s), Fan(parts))
  }

  // ---------------------------------------------------------------------------
  // lines

  /**
   * The keywords that have a handler. `Inherited` is a key that `keywords`
   * inherits from `Object.prototype` and whose value throws when it is called
   * without a receiver in strict code; every other keyword is `Unhandled`
   * (`toString` and `constructor` among them: they return without effect).
   */
  datatype Directive = V | Vn | Vt | F | S | Mtllib | Usemtl | G | O | Unhandled | Inherited

  /** `keywords[keyword]`. */
  function DirectiveOf(keyword: string): Directive {
    if keyword == "v" then V
    else if keyword == "vn" then Vn
    else if keyword == "vt" then Vt
    else if keyword == "f" then F
    else if keyword == "s" then S
    else if keyword == "mtllib" then Mtllib
    else if keyword == "usemtl" then Usemtl
    else if keyword == "g" then G
    else if keyword == "o" then O
    else if keyword in ThrowingKeys then Inherited
    else Unhandled
  }

  /** The keys of the `keywords` object. */
  const HandledKeywords: seq<string> := ["v", "vn", "vt", "f", "s", "mtllib", "usemtl", "g", "o"]

  /**
   * The `Object.prototype` keys made only of word characters whose value
   * throws a TypeError when called as `handler(parts, unparsedArgs)`: the
   * methods convert their missing receiver to an object, and `__proto__` is
   * not a function.
   */
  const ThrowingKeys: seq<string> :=
    ["hasOwnProperty", "isPrototypeOf", "propertyIsEnumerable", "toLocaleString", "valueOf",
     "__defineGetter__", "__defineSetter__", "__lookupGetter__", "__lookupSetter__", "__proto__"]

  /** The key of a handler in the `keywords` object. */
  function Name(d: Directive): string {
    match d
    case V => "v"
    case Vn => "vn"
    case Vt => "vt"
    case F => "f"
    case S => "s"
    case Mtllib => "mtllib"
    case Usemtl => "usemtl"
    case G => "g"
    case O => "o"
    case Unhandled | Inherited => ""
  }

  /**
   * A keyword reaches a handler exactly when it is a key of `keywords`, and
   * then the handler stored under that key; it reaches a throwing inherited
   * member exactly when it is one of `ThrowingKeys`.
   */
  lemma DirectiveOfKeys(keyword: string)
    ensures (DirectiveOf(keyword).Unhandled? || DirectiveOf(keyword).Inherited?) <==> keyword !in HandledKeywords
    ensures DirectiveOf(keyword).Inherited? <==> keyword in ThrowingKeys
    ensures !DirectiveOf(keyword).Unhandled? && !DirectiveOf(keyword).Inherited? ==> Name(DirectiveOf(keyword)) == keyword
  {
  }

  /** `parts.map(parseFloat)`. */
  function ParseFloats(parseFloat: string -> Num, parts: seq<string>): (r: Tuple)
    ensures |r| == |parts|
    ensures forall k :: 0 <= k < |parts| ==> r[k] == parseFloat(parts[k])
  {
    seq(|parts|, k requires 0 <= k < |parts| => parseFloat(parts[k]))
  }

  /** The `v` handler: more than three numbers are a position followed by a colour. */
  function Vertex(s: State, parts: seq<string>, parseFloat: string -> Num): (t: State)
    ensures t == s.(positions := t.positions, colors := t.colors)
    ensures t.positions == s.positions + [ParseFloats(parseFloat, if |parts| > 3 then parts[..3] else parts)]
    ensures t.colors == s.colors + (if |parts| > 3 then [ParseFloats(parseFloat, parts[3..])] else [])
  {
    if |parts| > 3 then
      s.(positions := s.positions + [ParseFloats(parseFloat, parts[..3])],
         colors := s.colors + [ParseFloats(parseFloat, parts[3..])])
    else s.(positions := s.positions + [ParseFloats(parseFloat, parts)])
  }

  /** The handler of `directive`, given the line's `parts` and `unparsedArgs`. */
  function Dispatch(s: State, directive: Directive, parts: seq<string>, unparsedArgs: string,
                    parseFloat: string -> Num): (r: Option<State>)
    requires s.Valid()
    ensures r.Some? ==> r.value.Valid()
  {
    match directive
    case V => Some(Vertex(s, parts, parseFloat))
    case Vn => Some(s.(normals := s.normals + [ParseFloats(parseFloat, parts)]))
    case Vt => Some(s.(texcoords := s.texcoords + [ParseFloats(parseFloat, parts)]))
    case F => Face(s, parts)
    case S => Some(s)
    case Mtllib => Some(s.(materialLibs := s.materialLibs + [unparsedArgs]))
    case Usemtl => Some(NewGeometry(s.(material := unparsedArgs)))
    case G => Some(NewGeometry(s.(groups := parts)))
    case O => Some(NewGeometry(s.(objectName := unparsedArgs)))
    case Unhandled => Some(s)
    case Inherited => None
  }

  /** A trimmed line that is processed: neither blank nor a comment. */
  predicate IsDirectiveLine(line: string) {
    line != "" && line[0] != '#'
  }

  /** The keyword handler a line reaches. */
  function LineDirective(line: string): Directive {
    DirectiveOf(Keyword(line))
  }

  /** `parts`: the whitespace-separated tokens after the first. */
  function LineParts(line: string): (parts: seq<string>)
    ensures forall k :: 0 <= k < |parts| ==> NoWhitespace(parts[k])
    ensures line != [] && !IsWhitespace(line[0]) && !IsWhitespace(line[|line| - 1]) ==>
              forall k :: 0 <= k < |parts| ==> parts[k] != ""
  {
    SplitWsEmptyPieces(line);
    SplitWs(line)[1..]
  }

  /** One iteration of the loop over lines. */
  function StepLine(s: State, raw: string, parseFloat: string -> Num): (r: Option<State>)
    requires s.Valid()
    ensures r.Some? ==> r.value.Valid()
  {
    var line := Trim(raw);
    if !IsDirectiveLine(line) then Some(s)
    else Dispatch(s, LineDirective(line), LineParts(line), UnparsedArgs(line), parseFloat)
  }

  /**
   * The state only moves forward: pools and material libraries are only
   * appended to, no geometry is removed, and closed geometries stay closed
   * and untouched.
   */
  predicate Evolves(s: State, t: State) {
    && s.positions <= t.positions && s.texcoords <= t.texcoords
    && s.normals <= t.normals && s.colors <= t.colors
    && s.materialLibs <= t.materialLibs
    && |s.geometries| <= |t.geometries|
    && s.Closed() <= t.Closed() <= |t.geometries|
    && s.Closed() <= |s.geometries|
    && t.geometries[..s.Closed()] == s.geometries[..s.Closed()]
  }

  lemma EvolvesTransitive(s: State, t: State, u: State)
    requires Evolves(s, t) && Evolves(t, u)
    ensures Evolves(s, u)
  {
    assert u.geometries[..s.Closed()] == u.geometries[..t.Closed()][..s.Closed()];
    assert t.geometries[..s.Closed()] == t.geometries[..t.Closed()][..s.Closed()];
  }

  lemma {:induction false} GrowsEvolves(s: State, t: State)
    requires s.Valid() && s.open && Grows(s, t)
    ensures Evolves(s, t)
  {
  }

  lemma {:induction false} FaceEvolves(s: State, parts: seq<string>)
    requires s.Valid() && Face(s, parts).Some?
    ensures Evolves(s, Face(s, parts).value)
  {
    var s1 := SetGeometry(s);
    var t := Face(s, parts).value;
    GrowsEvolves(s1, t);
    if !s.open {
      assert s1.geometries[..s.Closed()] == s.geometries;
    }
    EvolvesTransitive(s, s1, t);
  }

  lemma {:induction false} NewGeometryEvolves(s: State)
    requires s.Valid()
    ensures Evolves(s, NewGeometry(s))
  {
  }

  /** Every handler moves the state forward. */
  lemma {:induction false} DispatchEvolves(s: State, directive: Directive, parts: seq<string>, unparsedArgs: string,
                                           parseFloat: string -> Num)
    requires s.Valid() && Dispatch(s, directive, parts, unparsedArgs, parseFloat).Some?
    ensures Evolves(s, Dispatch(s, directive, parts, unparsedArgs, parseFloat).value)
  {
    match directive
    case F => FaceEvolves(s, parts);
    case Usemtl => NewGeometryEvolves(s.(material := unparsedArgs));
    case G => NewGeometryEvolves(s.(groups := parts));
    case O => NewGeometryEvolves(s.(objectName := unparsedArgs));
    case _ =>
  }

  lemma {:induction false} StepEvolves(s: State, raw: string, parseFloat: string -> Num)
    requires s.Valid() && StepLine(s, raw, parseFloat).Some?
    ensures Evolves(s, StepLine(s, raw, parseFloat).value)
  {
    var line := Trim(raw);
    if IsDirectiveLine(line) {
      DispatchEvolves(s, LineDirective(line), LineParts(line), UnparsedArgs(line), parseFloat);
    }
  }

  /** The loop over lines from line `i` on; `Err(n)` when line `n` throws. */
  function ParseLinesFrom(s: State, lines: seq<string>, i: nat, parseFloat: string -> Num): (r: Result<State>)
    requires s.Valid() && i <= |lines|
    ensures r.Ok? ==> r.value.Valid() && Evolves(s, r.value)
    ensures r.Err? ==> i <= r.lineNo < |lines|
    decreases |lines| - i
  {
    if i == |lines| then Ok(s)
    else match StepLine(s, lines[i], parseFloat)
      case None => Err(i)
      case Some(t) =>
        StepEvolves(s, lines[i], parseFloat);
        var r := ParseLinesFrom(t, lines, i + 1, parseFloat);
        assert r.Ok? ==> Evolves(s, r.value) by {
          if r.Ok? { EvolvesTransitive(s, t, r.value); }
        }
        r
  }

  /** A line that is handled hands its state on to the next line. */
  lemma ParseLinesCons(s: State, lines: seq<string>, i: nat, parseFloat: string -> Num, t: State)
    requires s.Valid() && i < |lines| && StepLine(s, lines[i], parseFloat) == Some(t)
    ensures ParseLinesFrom(s, lines, i, parseFloat) == ParseLinesFrom(t, lines, i + 1, parseFloat)
  {
  }

  /** A line whose handler throws ends the parse with its number. */
  lemma ParseLinesStops(s: State, lines: seq<string>, i: nat, parseFloat: string -> Num)
    requires s.Valid() && i < |lines| && StepLine(s, lines[i], parseFloat).None?
    ensures ParseLinesFrom(s, lines, i, parseFloat) == Err(i)
  {
  }

  // ---------------------------------------------------------------------------
  // cleanup and the result

  /** `Object.entries(data).filter(([, array]) => array.length > 0)`. */
  function NonEmpty(data: seq<Attribute>): (r: seq<Attribute>)
    ensures |r| <= |data|
    ensures forall k :: 0 <= k < |r| ==> r[k].values != [] && r[k] in data
    ensures forall i :: 0 <= i < |data| && data[i].values != [] ==> data[i] in r
    decreases |data|
  {
    if data == [] then []
    else if data[0].values != [] then [data[0]] + NonEmpty(data[1..])
    else NonEmpty(data[1..])
  }

  /** The loop that drops every empty array from every geometry's `data`. */
  function RemoveEmptyArrays(geometries: seq<Geometry>): (r: seq<Geometry>)
    ensures |r| == |geometries|
    ensures forall k :: 0 <= k < |r| ==>
      r[k].objectName == geometries[k].objectName && r[k].groups == geometries[k].groups
      && r[k].material == geometries[k].material
    ensures forall k, a :: 0 <= k < |r| && a in r[k].data ==> a.values != [] && a in geometries[k].data
    ensures forall k, a :: 0 <= k < |r| && a in geometries[k].data && a.values != [] ==> a in r[k].data
  {
    seq(|geometries|, k requires 0 <= k < |geometries| => geometries[k].(data := NonEmpty(geometries[k].data)))
  }

  datatype ObjData = ObjData(geometries: seq<Geometry>, materialLibs: seq<string>)

  /** `parseOBJ(text)`; `Err(n)` when the handler of line `n` throws. */
  function ParseObj(text: string, parseFloat: string -> Num): (r: Result<ObjData>)
    ensures r.Err? ==> r.lineNo < |Split(text, '\n')|
    ensures r.Ok? ==> forall k, a :: 0 <= k < |r.value.geometries| && a in r.value.geometries[k].data ==> a.values != []
  {
    match ParseLinesFrom(Init(), Split(text, '\n'), 0, parseFloat)
    case Err(n) => Err(n)
    case Ok(s) => Ok(ObjData(RemoveEmptyArrays(s.geometries), s.materialLibs))
  }
}
