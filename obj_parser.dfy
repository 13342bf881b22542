/**
 * `parseOBJ` as the source runs it: its local variables are the fields of a
 * `Parser` object, its nested helpers and keyword handlers are methods that
 * update those fields in place, and the two loops over the lines and over the
 * geometries are `while` loops. Every method is proved to move the parser
 * exactly where the corresponding function of `ObjModel` says, so the
 * properties proved about those functions hold of the running parser.
 */
module ObjParser {
  import opened Wrappers
  import opened JsNumber
  import opened JsText
  import opened ObjModel

  class Parser {
    var positions: Pool
    var texcoords: Pool
    var normals: Pool
    var colors: Pool
    var geometries: seq<Geometry>
    /** Whether `geometry` is set; when it is, it is the last element of `geometries`. */
    var open: bool
    var groups: seq<string>
    var material: string
    var objectName: string
    var materialLibs: seq<string>
    /** The number reader `parts.map(parseFloat)` uses. */
    const parseFloat: string -> Num

    /** The parser's locals as a value of the model. */
    function Snapshot(): State
      reads this
    {
      State(positions, texcoords, normals, colors, geometries, open, groups, material, objectName, materialLibs)
    }

    predicate Valid()
      reads this
    {
      Snapshot().Valid()
    }

    /** The locals as `parseOBJ` initialises them, each pool seeded with its dummy entry. */
    constructor (parseFloat: string -> Num)
      ensures Snapshot() == Init() && this.parseFloat == parseFloat
    {
      positions, texcoords, normals, colors := [[Zero, Zero, Zero]], [[Zero, Zero]], [[Zero, Zero, Zero]], [[Zero, Zero, Zero]];
      geometries, open := [], false;
      groups, material, objectName := ["default"], "default", "default";
      materialLibs := [];
      this.parseFloat := parseFloat;
    }

    /** `newGeometry()`. */
    method NewGeometry()
      requires Valid()
      modifies this
      ensures Snapshot() == ObjModel.NewGeometry(old(Snapshot()))
    {
      if open && |geometries[|geometries| - 1].data[0].values| > 0 {
        open := false;
      }
    }

    /** `setGeometry()`. */
    method SetGeometry()
      requires Valid()
      modifies this
      ensures Snapshot() == ObjModel.SetGeometry(old(Snapshot()))
    {
      if !open {
        geometries := geometries + [Geometry(objectName, groups, material, EmptyData())];
        open := true;
      }
    }

    /** `webglVertexData[i].push(...vals)`: the open geometry's buffer `i` grows by `vals`. */
    method Push(i: nat, vals: seq<Num>)
      requires Valid() && open && i < 4
      modifies this
      ensures Snapshot() == Append(old(Snapshot()), i, vals)
    {
      var g := geometries[|geometries| - 1];
      geometries := geometries[|geometries| - 1 := g.(data := g.data[i := g.data[i].(values := g.data[i].values + vals)])];
    }

    /**
     * The entry at `index` of pool `i` is spread into buffer `i`, and for the
     * position component the colour entry at `index` into the colour buffer
     * once any colour has been read. It reports `false` exactly when the
     * source throws.
     */
    method AddEntry(i: nat, index: int) returns (ok: bool)
      requires Valid() && open && i < 4
      modifies this
      ensures Valid() && open
      ensures if ok then ObjModel.AddEntry(old(Snapshot()), i, index) == Some(Snapshot())
              else ObjModel.AddEntry(old(Snapshot()), i, index).None?
    {
      var pool := [positions, texcoords, normals, colors][i];
      if !(0 <= index < |pool|) {
        return false;
      }
      Push(i, pool[index]);
      if i == 0 && |colors| > 1 {
        if index >= |colors| {
          return false;
        }
        Push(3, colors[index]);
      }
      return true;
    }

    /** The callback of the `forEach` in `addVertex`, on component `i`. */
    method AddComponent(i: nat, objIndexStr: string) returns (ok: bool)
      requires Valid() && open
      modifies this
      ensures Valid() && open
      ensures if ok then ObjModel.AddComponent(old(Snapshot()), i, objIndexStr) == Some(Snapshot())
              else ObjModel.AddComponent(old(Snapshot()), i, objIndexStr).None?
    {
      if objIndexStr == "" {
        return true;
      }
      if i >= 4 {
        return false;
      }
      var objIndex := ParseInt(objIndexStr);
      if objIndex.None? {
        return false;
      }
      var index := ResolveIndex(objIndex.value, |[positions, texcoords, normals, colors][i]|);
      ok := AddEntry(i, index);
    }

    /**
     * `addVertex(vert)`: the `forEach` over the `/`-separated components. It
     * reports `false` exactly when the source throws.
     */
    method AddVertex(vert: string) returns (ok: bool)
      requires Valid() && open
      modifies this
      ensures Valid() && open
      ensures if ok then ObjModel.AddVertex(old(Snapshot()), vert) == Some(Snapshot())
              else ObjModel.AddVertex(old(Snapshot()), vert).None?
    {
      var ptn := Split(vert, '/');
      var i := 0;
      while i < |ptn|
        invariant 0 <= i <= |ptn|
        invariant Valid() && open
        invariant ObjModel.AddVertex(old(Snapshot()), vert) == AddComponentsFrom(Snapshot(), ptn, i)
      {
        ok := AddComponent(i, ptn[i]);
        if !ok {
          return;
        }
        i := i + 1;
      }
      return true;
    }

    /** The `v` handler. */
    method V(parts: seq<string>)
      modifies this
      ensures Snapshot() == Vertex(old(Snapshot()), parts, parseFloat)
    {
      if |parts| > 3 {
        positions := positions + [ParseFloats(parseFloat, parts[..3])];
        colors := colors + [ParseFloats(parseFloat, parts[3..])];
      } else {
        positions := positions + [ParseFloats(parseFloat, parts)];
      }
    }

    /**
     * The `f` handler: open a geometry, then add the fan of triangles around
     * the first reference. It reports `false` exactly when the source throws.
     */
    method F(parts: seq<string>) returns (ok: bool)
      requires Valid()
      modifies this
      ensures Valid()
      ensures if ok then Face(old(Snapshot()), parts) == Some(Snapshot()) else Face(old(Snapshot()), parts).None?
    {
      SetGeometry();
      var numTriangles := |parts| - 2;
      ghost var count := if numTriangles > 0 then numTriangles else 0;
      var tri := 0;
      while tri < numTriangles
        invariant 0 <= tri <= count
        invariant Valid() && open
        invariant Face(old(Snapshot()), parts) == AddVertices(Snapshot(), FanFrom(parts, tri, count))
      {
        assert FanFrom(parts, tri, count) == [parts[0], parts[tri + 1], parts[tri + 2]] + FanFrom(parts, tri + 1, count);
        ok := AddTriangle(parts[0], parts[tri + 1], parts[tri + 2], FanFrom(parts, tri + 1, count));
        if !ok {
          return;
        }
        tri := tri + 1;
      }
      return true;
    }

    /**
     * The body of the triangle loop of `f`: `addVertex` on the three
     * references of one triangle, ahead of the references `rest` of the
     * triangles still to come.
     */
    method AddTriangle(a: string, b: string, c: string, ghost rest: seq<string>) returns (ok: bool)
      requires Valid() && open
      modifies this
      ensures Valid() && open
      ensures if ok then AddVertices(old(Snapshot()), [a, b, c] + rest) == AddVertices(Snapshot(), rest)
              else AddVertices(old(Snapshot()), [a, b, c] + rest).None?
    {
      ghost var fan := [a, b, c] + rest;
      assert fan[0] == a && fan[1..][0] == b && fan[2..][0] == c && fan[2..][1..] == rest;
      ghost var s := Snapshot();
      ok := AddVertex(a);
      if !ok {
        AddVerticesStops(s, fan);
        return;
      }
      AddVerticesCons(s, fan, Snapshot());
      s := Snapshot();
      ok := AddVertex(b);
      if !ok {
        AddVerticesStops(s, fan[1..]);
        return;
      }
      AddVerticesCons(s, fan[1..], Snapshot());
      s := Snapshot();
      ok := AddVertex(c);
      if !ok {
        AddVerticesStops(s, fan[2..]);
        return;
      }
      AddVerticesCons(s, fan[2..], Snapshot());
    }

    /**
     * One iteration of the loop over lines: trim, skip blanks and comments,
     * split off the keyword, `unparsedArgs` and `parts`, and run the
     * keyword's handler. It reports `false` exactly when the source throws.
     */
    method HandleLine(raw: string) returns (ok: bool)
      requires Valid()
      modifies this
      ensures Valid()
      ensures if ok then StepLine(old(Snapshot()), raw, parseFloat) == Some(Snapshot())
              else StepLine(old(Snapshot()), raw, parseFloat).None?
    {
      var line := Trim(raw);
      if line == "" || line[0] == '#' {
        return true;
      }
      var keyword := Keyword(line);
      var unparsedArgs := UnparsedArgs(line);
      var parts := SplitWs(line)[1..];
      ok := Handle(DirectiveOf(keyword), parts, unparsedArgs);
    }

    /** `keywords[keyword](parts, unparsedArgs)`; an unhandled keyword is skipped, an inherited one throws. */
    method Handle(d: Directive, parts: seq<string>, unparsedArgs: string) returns (ok: bool)
      requires Valid()
      modifies this
      ensures Valid()
      ensures if ok then Dispatch(old(Snapshot()), d, parts, unparsedArgs, parseFloat) == Some(Snapshot())
              else Dispatch(old(Snapshot()), d, parts, unparsedArgs, parseFloat).None?
    {
      ok := true;
      match d
      case V =>
        V(parts);
      case Vn =>
        normals := normals + [ParseFloats(parseFloat, parts)];
      case Vt =>
        texcoords := texcoords + [ParseFloats(parseFloat, parts)];
      case F =>
        ok := F(parts);
      case S =>
      case Mtllib =>
        materialLibs := materialLibs + [unparsedArgs];
      case Usemtl =>
        material := unparsedArgs;
        NewGeometry();
      case G =>
        groups := parts;
        NewGeometry();
      case O =>
        objectName := unparsedArgs;
        NewGeometry();
      case Unhandled =>
      case Inherited =>
        ok := false;
    }

    /** The loop that drops every empty array from each geometry's `data`. */
    method RemoveEmptyArrays()
      modifies this
      ensures geometries == ObjModel.RemoveEmptyArrays(old(geometries))
      ensures Snapshot() == old(Snapshot()).(geometries := geometries)
    {
      var k := 0;
      while k < |geometries|
        invariant 0 <= k <= |geometries| == |old(geometries)|
        invariant forall j :: 0 <= j < k ==> geometries[j] == old(geometries)[j].(data := NonEmpty(old(geometries)[j].data))
        invariant forall j :: k <= j < |geometries| ==> geometries[j] == old(geometries)[j]
        invariant Snapshot() == old(Snapshot()).(geometries := geometries)
      {
        var g := geometries[k];
        geometries := geometries[k := g.(data := NonEmpty(g.data))];
        k := k + 1;
      }
    }
  }

  /**
   * `parseOBJ(text)`: run every line through a fresh parser, stopping at the
   * first line whose handler throws, then clean up the geometries.
   */
  method ParseObj(text: string, parseFloat: string -> Num) returns (r: Result<ObjData>)
    ensures r == ObjModel.ParseObj(text, parseFloat)
  {
    var p := new Parser(parseFloat);
    var lines := Split(text, '\n');
    var lineNo := 0;
    while lineNo < |lines|
      invariant 0 <= lineNo <= |lines|
      invariant p.Valid() && p.parseFloat == parseFloat
      invariant ParseLinesFrom(Init(), lines, 0, parseFloat) == ParseLinesFrom(p.Snapshot(), lines, lineNo, parseFloat)
    {
      ghost var s := p.Snapshot();
      var ok := p.HandleLine(lines[lineNo]);
      if !ok {
        ParseLinesStops(s, lines, lineNo, parseFloat);
        return Err(lineNo);
      }
      ParseLinesCons(s, lines, lineNo, parseFloat, p.Snapshot());
      lineNo := lineNo + 1;
    }
    assert ParseLinesFrom(Init(), lines, 0, parseFloat) == Ok(p.Snapshot());
    p.RemoveEmptyArrays();
    return Ok(ObjData(p.geometries, p.materialLibs));
  }
}
