/**
 * Properties of the OBJ parser model: what one face emits, how references
 * resolve, how lines change the pools and the geometry list, and what the
 * final clean-up keeps.
 */
module ObjProperties {
  import opened Wrappers
  import opened JsNumber
  import opened JsText
  import opened ObjModel

  // ---------------------------------------------------------------------------
  // fan triangulation

  /** The three references of triangle `t` of a face. */
  function Triangle(parts: seq<string>, t: nat): seq<string>
    requires t + 2 < |parts|
  {
    [parts[0], parts[t + 1], parts[t + 2]]
  }

  lemma {:induction false} FanFromShape(parts: seq<string>, tri: nat, count: nat)
    requires count <= |parts| - 2 || count == 0
    requires tri <= count
    ensures |FanFrom(parts, tri, count)| == 3 * (count - tri)
    ensures forall u :: tri <= u < count ==>
              FanFrom(parts, tri, count)[3 * (u - tri)..3 * (u - tri) + 3] == Triangle(parts, u)
    decreases count - tri
  {
    if tri < count {
      FanFromShape(parts, tri + 1, count);
      var rest := FanFrom(parts, tri + 1, count);
      var f := FanFrom(parts, tri, count);
      assert f == Triangle(parts, tri) + rest;
      forall u | tri <= u < count
        ensures f[3 * (u - tri)..3 * (u - tri) + 3] == Triangle(parts, u)
      {
        if u > tri {
          assert f[3 * (u - tri)..3 * (u - tri) + 3] == rest[3 * (u - tri - 1)..3 * (u - tri - 1) + 3];
        }
      }
    }
  }

  /**
   * A face with N references calls `addVertex` 3·(N-2) times, on the first
   * reference, reference t+1 and reference t+2 for triangle t; with fewer than
   * three references it calls it not at all.
   */
  lemma FanShape(parts: seq<string>)
    ensures |Fan(parts)| == if |parts| >= 3 then 3 * (|parts| - 2) else 0
    ensures forall t :: 0 <= t < |parts| - 2 ==> Fan(parts)[3 * t..3 * t + 3] == Triangle(parts, t)
  {
    var count := if NumTriangles(parts) > 0 then NumTriangles(parts) else 0;
    FanFromShape(parts, 0, count);
  }

  /** A face with fewer than three references emits nothing but still opens a geometry. */
  lemma DegenerateFace(s: State, parts: seq<string>)
    requires s.Valid() && |parts| < 3
    ensures Face(s, parts) == Some(SetGeometry(s))
    ensures Face(s, parts).value.open
  {
    assert Fan(parts) == [];
  }

  // ---------------------------------------------------------------------------
  // references made of a position index only

  /** A reference such as `3` or `-1`: one component, naming an existing position with three coordinates. */
  predicate PositionOnly(positions: Pool, vert: string) {
    && '/' !in vert
    && ParseInt(vert).Some?
    && 0 <= ResolveIndex(ParseInt(vert).value, |positions|) < |positions|
    && |positions[ResolveIndex(ParseInt(vert).value, |positions|)]| == 3
  }

  /** The coordinates a position-only reference selects. */
  function Selected(positions: Pool, vert: string): Tuple
    requires PositionOnly(positions, vert)
  {
    positions[ResolveIndex(ParseInt(vert).value, |positions|)]
  }

  /** The coordinates the references select, one after the other. */
  function Gathered(positions: Pool, verts: seq<string>): (r: seq<Num>)
    requires forall k :: 0 <= k < |verts| ==> PositionOnly(positions, verts[k])
    ensures |r| == 3 * |verts|
    decreases |verts|
  {
    if verts == [] then [] else Selected(positions, verts[0]) + Gathered(positions, verts[1..])
  }

  lemma SplitWithoutSeparator(vert: string, sep: char)
    requires sep !in vert
    ensures Split(vert, sep) == [vert]
  {
    SplitJoin([vert], sep);
  }

  /** A reference without `/` is a single component, the position one. */
  lemma {:induction false} SingleComponentVertex(s: State, vert: string)
    requires s.Valid() && s.open && '/' !in vert
    ensures AddVertex(s, vert) == AddComponent(s, 0, vert)
  {
    SplitWithoutSeparator(vert, '/');
    match AddComponent(s, 0, vert)
    case None =>
    case Some(t) => assert AddComponentsFrom(t, [vert], 1) == Some(t);
  }

  lemma AppendTwice(s: State, i: nat, a: seq<Num>, b: seq<Num>)
    requires s.Valid() && s.open && i < 4
    ensures Append(Append(s, i, a), i, b) == Append(s, i, a + b)
  {
    var g, n := s.Current(), |s.geometries| - 1;
    var s1 := Append(s, i, a);
    var h1 := s1.Current();
    assert h1.data[i].values == g.data[i].values + a;
    var x := g.data[i].(values := g.data[i].values + (a + b));
    assert h1.data[i].(values := h1.data[i].values + b) == x by {
      assert g.data[i].values + a + b == g.data[i].values + (a + b);
    }
    assert h1.data[i := x] == g.data[i := x];
    assert s1.geometries[n := h1.(data := h1.data[i := x])] == s.geometries[n := g.(data := g.data[i := x])];
  }

  lemma AppendNothing(s: State, i: nat)
    requires s.Valid() && s.open && i < 4
    ensures Append(s, i, []) == s
  {
    var g := s.Current();
    assert g.data[i].values + [] == g.data[i].values;
    assert g.data[i := g.data[i]] == g.data;
    assert s.geometries[|s.geometries| - 1 := g] == s.geometries;
  }

  /**
   * Without colours, a position-only reference appends exactly the three
   * coordinates it selects to the position buffer and nothing else.
   */
  lemma {:induction false} AddVertexPositionOnly(s: State, vert: string)
    requires s.Valid() && s.open && |s.colors| == 1
    requires PositionOnly(s.positions, vert)
    ensures AddVertex(s, vert) == Some(Append(s, 0, Selected(s.positions, vert)))
  {
    SingleComponentVertex(s, vert);
    assert vert != "";
  }

  lemma {:induction false} AddVerticesPositionOnly(s: State, verts: seq<string>)
    requires s.Valid() && s.open && |s.colors| == 1
    requires forall k :: 0 <= k < |verts| ==> PositionOnly(s.positions, verts[k])
    ensures AddVertices(s, verts) == Some(Append(s, 0, Gathered(s.positions, verts)))
    decreases |verts|
  {
    if verts == [] {
      AppendNothing(s, 0);
    } else {
      AddVertexPositionOnly(s, verts[0]);
      var a := Selected(s.positions, verts[0]);
      var t := Append(s, 0, a);
      AddVerticesCons(s, verts, t);
      assert t.positions == s.positions && t.colors == s.colors;
      var rest := verts[1..];
      assert forall k :: 0 <= k < |rest| ==> PositionOnly(s.positions, rest[k]) by {
        forall k | 0 <= k < |rest| ensures PositionOnly(s.positions, rest[k]) {
          assert rest[k] == verts[k + 1];
        }
      }
      AddVerticesPositionOnly(t, rest);
      assert Gathered(s.positions, verts) == a + Gathered(s.positions, rest);
      AppendTwice(s, 0, a, Gathered(s.positions, rest));
    }
  }

  /**
   * A face of N ≥ 3 position-only references, in a file without vertex
   * colours, appends 9·(N-2) numbers (3·(N-2) vertices) to the open geometry's
   * position buffer, the coordinates of each triangle's three references in
   * fan order, and nothing to its other buffers.
   */
  lemma FacePositions(s: State, parts: seq<string>)
    requires s.Valid() && |s.colors| == 1
    requires forall k :: 0 <= k < |parts| ==> PositionOnly(s.positions, parts[k])
    ensures forall k :: 0 <= k < |Fan(parts)| ==> PositionOnly(s.positions, Fan(parts)[k])
    ensures Face(s, parts) == Some(Append(SetGeometry(s), 0, Gathered(s.positions, Fan(parts))))
    ensures |Gathered(s.positions, Fan(parts))| == if |parts| >= 3 then 9 * (|parts| - 2) else 0
  {
    var s1 := SetGeometry(s);
    FanShape(parts);
    forall k | 0 <= k < |Fan(parts)| ensures PositionOnly(s1.positions, Fan(parts)[k]) {
      FanElement(parts, k);
    }
    AddVerticesPositionOnly(s1, Fan(parts));
  }

  /** Every reference of a fan is one of the face's references. */
  lemma FanElement(parts: seq<string>, k: nat)
    requires k < |Fan(parts)|
    ensures Fan(parts)[k] in parts
  {
    FanShape(parts);
    var t := k / 3;
    assert 3 * t <= k < 3 * t + 3;
    assert 0 <= t < |parts| - 2;
    var tri := Fan(parts)[3 * t..3 * t + 3];
    assert Fan(parts)[k] == tri[k - 3 * t];
    assert tri == Triangle(parts, t);
    assert parts[0] in parts && parts[t + 1] in parts && parts[t + 2] in parts;
  }

  // ---------------------------------------------------------------------------
  // resolving references

  lemma NoSlashInNumeral(n: nat)
    ensures '/' !in Decimal(n) && '/' !in ['-'] + Decimal(n)
  {
    var d := Decimal(n);
    forall j | 0 <= j < |d|
      ensures d[j] != '/'
    {
      assert '0' <= d[j];
    }
  }

  /**
   * A negative reference counts back from the end of the pool at the moment
   * it is read: with `|positions|` entries (the dummy included), `-k` is the
   * same reference as `|positions| - k`, i.e. the k-th most recent position.
   */
  lemma NegativeReference(s: State, k: nat)
    requires s.Valid() && s.open
    requires 1 <= k < |s.positions|
    ensures AddVertex(s, ['-'] + Decimal(k)) == AddVertex(s, Decimal(|s.positions| - k))
  {
    var m: nat := |s.positions| - k;
    var neg, pos := ['-'] + Decimal(k), Decimal(m);
    NoSlashInNumeral(k);
    NoSlashInNumeral(m);
    SingleComponentVertex(s, neg);
    SingleComponentVertex(s, pos);
    ParseIntDecimal(k);
    ParseIntDecimal(m);
    NegativeComponent(s, k, neg, pos);
  }

  /** Two position components that parse to `-k` and `|positions| - k` add the same entry. */
  lemma NegativeComponent(s: State, k: nat, neg: string, pos: string)
    requires s.Valid() && s.open
    requires 1 <= k < |s.positions| && neg != "" && pos != ""
    requires ParseInt(neg) == Some(-(k as int)) && ParseInt(pos) == Some(|s.positions| - k)
    ensures AddComponent(s, 0, neg) == AddComponent(s, 0, pos)
  {
    assert s.VertexData()[0] == s.positions;
    assert AddComponent(s, 0, neg) == AddEntry(s, 0, |s.positions| - k);
  }

  /**
   * One non-empty component `i` < 4 of a reference: it throws when it is not
   * a number or its index falls outside pool `i`; otherwise buffer `i` grows
   * by exactly the pool entry at the resolved index (index 0 being the dummy),
   * and for the position component the colour buffer grows by the colour
   * entry at the same index exactly when some colour has been read, throwing
   * if that colour entry does not exist.
   */
  lemma ComponentEffect(s: State, i: nat, component: string)
    requires s.Valid() && s.open && i < 4 && component != ""
    ensures ParseInt(component).None? ==> AddComponent(s, i, component).None?
    ensures ParseInt(component).Some? ==>
      var pool := s.VertexData()[i];
      var index := ResolveIndex(ParseInt(component).value, |pool|);
      var colored := i == 0 && |s.colors| > 1;
      && (AddComponent(s, i, component).Some? <==> 0 <= index < |pool| && (colored ==> index < |s.colors|))
      && (AddComponent(s, i, component).Some? ==>
            var g, h := s.Current(), AddComponent(s, i, component).value.Current();
            && h.data[i].values == g.data[i].values + pool[index]
            && (i != 3 ==> h.data[3].values == g.data[3].values + (if colored then s.colors[index] else []))
            && forall b :: 0 <= b < 4 && b != i && b != 3 ==> h.data[b] == g.data[b])
  {
  }

  /** A fifth component makes `addVertex` throw, whatever it holds, unless it is empty. */
  lemma FifthComponentThrows(s: State, i: nat, component: string)
    requires s.Valid() && s.open && i >= 4
    ensures AddComponent(s, i, component).None? <==> component != ""
  {
  }

  // ---------------------------------------------------------------------------
  // lines

  /** A line that is neither blank nor a comment goes to the handler of its keyword. */
  lemma StepDispatch(s: State, raw: string, parseFloat: string -> Num)
    requires s.Valid() && IsDirectiveLine(Trim(raw))
    ensures var line := Trim(raw);
      StepLine(s, raw, parseFloat) == Dispatch(s, LineDirective(line), LineParts(line), UnparsedArgs(line), parseFloat)
  {
  }

  /**
   * Blank lines, comments, `s`, and keywords without a handler leave the
   * state exactly as it was.
   */
  lemma LinesWithoutEffect(s: State, raw: string, parseFloat: string -> Num)
    requires s.Valid()
    requires !IsDirectiveLine(Trim(raw)) || (LineDirective(Trim(raw)).S? || LineDirective(Trim(raw)).Unhandled?)
    ensures StepLine(s, raw, parseFloat) == Some(s)
  {
    if IsDirectiveLine(Trim(raw)) {
      StepDispatch(s, raw, parseFloat);
    }
  }

  /** A keyword that names a throwing `Object.prototype` member ends the parse. */
  lemma InheritedKeyThrows(s: State, raw: string, parseFloat: string -> Num)
    requires s.Valid() && IsDirectiveLine(Trim(raw)) && Keyword(Trim(raw)) in ThrowingKeys
    ensures StepLine(s, raw, parseFloat).None?
  {
    DirectiveOfKeys(Keyword(Trim(raw)));
    InheritedLineThrows(s, raw, parseFloat);
  }

  lemma InheritedLineThrows(s: State, raw: string, parseFloat: string -> Num)
    requires s.Valid() && IsDirectiveLine(Trim(raw)) && LineDirective(Trim(raw)).Inherited?
    ensures StepLine(s, raw, parseFloat).None?
  {
    var line := Trim(raw);
    StepDispatch(s, raw, parseFloat);
    InheritedThrows(s, LineDirective(line), LineParts(line), UnparsedArgs(line), parseFloat);
  }

  lemma InheritedThrows(s: State, d: Directive, parts: seq<string>, unparsedArgs: string, parseFloat: string -> Num)
    requires s.Valid() && d.Inherited?
    ensures Dispatch(s, d, parts, unparsedArgs, parseFloat).None?
  {
  }

  /** `mtllib` appends the unsplit rest of the line to the material libraries and changes nothing else. */
  lemma MtllibVerbatim(s: State, raw: string, parseFloat: string -> Num)
    requires s.Valid() && IsDirectiveLine(Trim(raw)) && LineDirective(Trim(raw)) == Mtllib
    ensures StepLine(s, raw, parseFloat) == Some(s.(materialLibs := s.materialLibs + [UnparsedArgs(Trim(raw))]))
  {
    StepDispatch(s, raw, parseFloat);
  }

  lemma {:induction false} DispatchPoolGrowth(s: State, d: Directive, parts: seq<string>, unparsedArgs: string,
                                              parseFloat: string -> Num)
    requires s.Valid() && Dispatch(s, d, parts, unparsedArgs, parseFloat).Some?
    ensures var t := Dispatch(s, d, parts, unparsedArgs, parseFloat).value;
      && t.positions == s.positions + (if d.V? then [ParseFloats(parseFloat, if |parts| > 3 then parts[..3] else parts)] else [])
      && t.colors == s.colors + (if d.V? && |parts| > 3 then [ParseFloats(parseFloat, parts[3..])] else [])
      && t.texcoords == s.texcoords + (if d.Vt? then [ParseFloats(parseFloat, parts)] else [])
      && t.normals == s.normals + (if d.Vn? then [ParseFloats(parseFloat, parts)] else [])
      && ((d.V? || d.Vt? || d.Vn?) ==>
            t == s.(positions := t.positions, texcoords := t.texcoords, normals := t.normals, colors := t.colors))
      && ((d.S? || d.Unhandled?) ==> t == s)
  {
    match d
    case F =>
      var s1 := SetGeometry(s);
      var t := Face(s, parts).value;
      assert Grows(s1, t);
    case V =>
    case Vt =>
    case Vn =>
    case _ =>
  }

  /**
   * Each line appends at most one entry to each pool: `v` one position (its
   * first three numbers) and, when it has more than three numbers, one colour
   * (the rest); `vt` one texture coordinate; `vn` one normal; no other line
   * touches the pools.
   */
  lemma PoolGrowth(s: State, raw: string, parseFloat: string -> Num)
    requires s.Valid() && StepLine(s, raw, parseFloat).Some?
    ensures var t, line := StepLine(s, raw, parseFloat).value, Trim(raw);
      var d := if IsDirectiveLine(line) then LineDirective(line) else S;
      var parts := if IsDirectiveLine(line) then LineParts(line) else [];
      && t.positions == s.positions + (if d.V? then [ParseFloats(parseFloat, if |parts| > 3 then parts[..3] else parts)] else [])
      && t.colors == s.colors + (if d.V? && |parts| > 3 then [ParseFloats(parseFloat, parts[3..])] else [])
      && t.texcoords == s.texcoords + (if d.Vt? then [ParseFloats(parseFloat, parts)] else [])
      && t.normals == s.normals + (if d.Vn? then [ParseFloats(parseFloat, parts)] else [])
  {
    var line := Trim(raw);
    if IsDirectiveLine(line) {
      DispatchPoolGrowth(s, LineDirective(line), LineParts(line), UnparsedArgs(line), parseFloat);
    }
  }

  /** The pools keep their dummy entry at index 0 for the whole parse. */
  lemma DummyEntriesKept(lines: seq<string>, parseFloat: string -> Num)
    requires ParseLinesFrom(Init(), lines, 0, parseFloat).Ok?
    ensures var t := ParseLinesFrom(Init(), lines, 0, parseFloat).value;
      && |t.positions| >= 1 && t.positions[0] == [Zero, Zero, Zero]
      && |t.texcoords| >= 1 && t.texcoords[0] == [Zero, Zero]
      && |t.normals| >= 1 && t.normals[0] == [Zero, Zero, Zero]
      && |t.colors| >= 1 && t.colors[0] == [Zero, Zero, Zero]
  {
  }

  // ---------------------------------------------------------------------------
  // the geometry lifecycle

  /** The handlers of `usemtl`, `o` and `g`. */
  predicate Switches(d: Directive) {
    d.Usemtl? || d.O? || d.G?
  }

  /**
   * `usemtl` stores the rest of the line as the material, `o` as the object
   * name, and `g` stores the tokens as the groups; nothing else changes but
   * the open flag, which is cleared exactly when the open geometry holds
   * positions.
   */
  lemma SwitchEffect(s: State, d: Directive, parts: seq<string>, args: string, t: State, parseFloat: string -> Num)
    requires s.Valid() && Switches(d)
    requires Dispatch(s, d, parts, args, parseFloat) == Some(t)
    ensures t.geometries == s.geometries
    ensures t.open <==> s.open && s.Current().data[0].values == []
    ensures d.Usemtl? ==> t == s.(material := args, open := t.open)
    ensures d.O? ==> t == s.(objectName := args, open := t.open)
    ensures d.G? ==> t == s.(groups := parts, open := t.open)
  {
    match d
    case Usemtl => assert t == NewGeometry(s.(material := args));
    case O => assert t == NewGeometry(s.(objectName := args));
    case G => assert t == NewGeometry(s.(groups := parts));
  }

  /**
   * A face fills the open geometry, keeping its object, groups and material;
   * when none is open it appends one that carries the current object, groups
   * and material. The geometries before it are left as they were.
   */
  lemma FaceTarget(t: State, parts: seq<string>, u: State)
    requires t.Valid() && Face(t, parts) == Some(u)
    ensures t.open ==> |u.geometries| == |t.geometries|
    ensures !t.open ==> |u.geometries| == |t.geometries| + 1
    ensures u.geometries[..|u.geometries| - 1] == t.geometries[..|u.geometries| - 1]
    ensures t.open ==> && u.Current().objectName == t.Current().objectName
                       && u.Current().groups == t.Current().groups
                       && u.Current().material == t.Current().material
    ensures !t.open ==> && u.Current().objectName == t.objectName && u.Current().groups == t.groups
                        && u.Current().material == t.material
  {
    var t1 := SetGeometry(t);
    assert Grows(t1, u);
    assert u.geometries[..|u.geometries| - 1] == t1.geometries[..|u.geometries| - 1];
  }

  /**
   * `usemtl`, `o` or `g` after a geometry that holds positions closes it; the
   * next face then appends a fresh geometry carrying the material, object
   * name or groups the line named (and the others as they were), and every
   * earlier geometry is left as it was.
   */
  lemma SwitchStartsNewGeometry(s: State, d: Directive, args: seq<string>, unparsedArgs: string, t: State,
                                parts: seq<string>, u: State, parseFloat: string -> Num)
    requires s.Valid() && s.open && s.Current().data[0].values != []
    requires Switches(d) && Dispatch(s, d, args, unparsedArgs, parseFloat) == Some(t)
    requires Face(t, parts) == Some(u)
    ensures !t.open && t.geometries == s.geometries
    ensures |u.geometries| == |s.geometries| + 1
    ensures u.geometries[..|s.geometries|] == s.geometries
    ensures u.Current().material == (if d.Usemtl? then unparsedArgs else s.material)
    ensures u.Current().objectName == (if d.O? then unparsedArgs else s.objectName)
    ensures u.Current().groups == (if d.G? then args else s.groups)
  {
    assert && !t.open && t.geometries == s.geometries
           && t.material == (if d.Usemtl? then unparsedArgs else s.material)
           && t.objectName == (if d.O? then unparsedArgs else s.objectName)
           && t.groups == (if d.G? then args else s.groups)
    by {
      SwitchEffect(s, d, args, unparsedArgs, t, parseFloat);
    }
    FaceTarget(t, parts, u);
  }

  /**
   * A geometry that is open but holds no positions is not closed by
   * `usemtl`, `o` or `g`: later faces keep filling it, under the object,
   * groups and material it was created with.
   */
  lemma EmptyGeometryStaysOpen(s: State, d: Directive, args: seq<string>, unparsedArgs: string, t: State,
                               parts: seq<string>, u: State, parseFloat: string -> Num)
    requires s.Valid() && s.open && s.Current().data[0].values == []
    requires Switches(d) && Dispatch(s, d, args, unparsedArgs, parseFloat) == Some(t)
    requires Face(t, parts) == Some(u)
    ensures t.open && t.geometries == s.geometries
    ensures |u.geometries| == |s.geometries|
    ensures u.Current().objectName == s.Current().objectName && u.Current().groups == s.Current().groups
    ensures u.Current().material == s.Current().material
  {
    assert t.open && t.geometries == s.geometries by {
      SwitchEffect(s, d, args, unparsedArgs, t, parseFloat);
    }
    FaceTarget(t, parts, u);
  }

  // ---------------------------------------------------------------------------
  // clean-up

  /** The filter distributes over concatenation: it keeps the non-empty arrays in their order. */
  lemma {:induction false} NonEmptyConcat(a: seq<Attribute>, b: seq<Attribute>)
    ensures NonEmpty(a + b) == NonEmpty(a) + NonEmpty(b)
    decreases |a|
  {
    if a == [] {
      assert a + b == b;
    } else {
      var c := a + b;
      assert c[0] == a[0] && c[1..] == a[1..] + b;
      NonEmptyConcat(a[1..], b);
      if a[0].values != [] {
        calc {
          NonEmpty(c);
          [a[0]] + NonEmpty(a[1..] + b);
          [a[0]] + (NonEmpty(a[1..]) + NonEmpty(b));
          ([a[0]] + NonEmpty(a[1..])) + NonEmpty(b);
          NonEmpty(a) + NonEmpty(b);
        }
      } else {
        calc {
          NonEmpty(c);
          NonEmpty(a[1..] + b);
          NonEmpty(a[1..]) + NonEmpty(b);
          NonEmpty(a) + NonEmpty(b);
        }
      }
    }
  }

  /**
   * After parsing, no geometry's data holds an empty array, every non-empty
   * working buffer is still there unchanged, and the geometries keep their
   * number, order, object, groups and material.
   */
  lemma ParsedGeometries(text: string, parseFloat: string -> Num)
    requires ParseObj(text, parseFloat).Ok?
    ensures var s := ParseLinesFrom(Init(), Split(text, '\n'), 0, parseFloat).value;
      var out := ParseObj(text, parseFloat).value.geometries;
      && |out| == |s.geometries|
      && (forall k, a :: 0 <= k < |out| && a in out[k].data ==> a.values != [] && a in s.geometries[k].data)
      && (forall k, a :: 0 <= k < |out| && a in s.geometries[k].data && a.values != [] ==> a in out[k].data)
      && (forall k :: 0 <= k < |out| ==>
            out[k].objectName == s.geometries[k].objectName && out[k].groups == s.geometries[k].groups
            && out[k].material == s.geometries[k].material)
  {
  }
}
