/** `parseObj` of main.js: reads Wavefront OBJ text into raw position, UV,
    normal and triangle lists, then expands every triangle corner into its own
    vertex. `Number.parseFloat` is a parameter: an oracle from a token to a
    number, or to nothing where JavaScript gives NaN. */
module ObjParser {
  import opened JsValues
  import opened Entities

  /** `Number.parseFloat` on one token: `None` stands for NaN. */
  type ParseFloatOracle = string -> Option<real>

  /** The value `Number.parseFloat` gives for a token. */
  function ParseFloat(parse: ParseFloatOracle, token: string): (v: JsValue)
    ensures v.Num? <==> parse(token).Some?
    ensures !v.Undefined?
  {
    if parse(token).Some? then Num(parse(token).value) else NaN
  }

  // ---------------------------------------------------------------- split

  /** `s.split(sep)` for a one-character separator: the pieces between the
      separators, empty pieces included, so there is always at least one. */
  function Split(s: string, sep: char): (parts: seq<string>)
    ensures |parts| >= 1
    ensures forall i :: 0 <= i < |parts| ==> sep !in parts[i]
  {
    if s == [] then [""]
    else
      var rest := Split(s[1..], sep);
      if s[0] == sep then [""] + rest else [[s[0]] + rest[0]] + rest[1..]
  }

  /** `parts.join(sep)`. */
  function Join(parts: seq<string>, sep: char): string
    requires |parts| >= 1
  {
    if |parts| == 1 then parts[0] else parts[0] + [sep] + Join(parts[1..], sep)
  }

  /** Joining the pieces back with the separator gives the text that was split. */
  lemma {:induction false} JoinSplit(s: string, sep: char)
    ensures Join(Split(s, sep), sep) == s
  {
    if s != [] {
      var rest := Split(s[1..], sep);
      JoinSplit(s[1..], sep);
      if s[0] == sep {
        assert ([""] + rest)[1..] == rest;
      } else {
        var parts := [[s[0]] + rest[0]] + rest[1..];
        if |rest| == 1 {
          assert parts == [[s[0]] + rest[0]];
        } else {
          assert parts[1..] == rest[1..];
          assert Join(rest, sep) == rest[0] + [sep] + Join(rest[1..], sep);
        }
      }
    }
  }

  /** Text without the separator is one piece. */
  lemma {:induction false} SplitWithoutSep(s: string, sep: char)
    requires sep !in s
    ensures Split(s, sep) == [s]
  {
    if s != [] {
      SplitWithoutSep(s[1..], sep);
      assert [s[0]] + s[1..] == s;
    }
  }

  /** The first piece ends at the first separator. */
  lemma {:induction false} SplitAtSep(a: string, sep: char, b: string)
    requires sep !in a
    ensures Split(a + [sep] + b, sep) == [a] + Split(b, sep)
  {
    if a == [] {
      assert ([] + [sep] + b)[1..] == b;
    } else {
      assert (a + [sep] + b)[1..] == a[1..] + [sep] + b;
      SplitAtSep(a[1..], sep, b);
      assert [a[0]] + a[1..] == a;
    }
  }

  /** Splitting what `Join` built gives back the pieces, when none holds the
      separator. */
  lemma {:induction false} SplitJoin(parts: seq<string>, sep: char)
    requires |parts| >= 1 && forall i :: 0 <= i < |parts| ==> sep !in parts[i]
    ensures Split(Join(parts, sep), sep) == parts
  {
    if |parts| == 1 {
      SplitWithoutSep(parts[0], sep);
    } else {
      SplitJoin(parts[1..], sep);
      SplitAtSep(parts[0], sep, Join(parts[1..], sep));
    }
  }

  // ---------------------------------------------------------------- data

  /** One triangle's position, UV and normal indices, 0-based; a list with no
      entry is left out (`undefined`). */
  datatype Tri = Tri(posIndices: seq<JsValue>, uvIndices: Option<seq<JsValue>>, nrmIndices: Option<seq<JsValue>>)

  /** The lists read from the text: one entry per `v`, `vt` and `vn` line, and
      one triangle per accepted `f` line. */
  datatype RawData = RawData(positions: seq<seq<JsValue>>, uvs: seq<seq<JsValue>>,
                             normals: seq<seq<JsValue>>, tris: seq<Tri>)

  const EmptyRaw := RawData([], [], [], [])

  /** The `ModelData` the parser returns: the expanded vertex positions, one
      colour per corner, the triangle indices and the expanded UVs. */
  datatype ModelData = ModelData(vertArray: seq<JsValue>, colorArray: seq<real>,
                                 indexArray: seq<nat>, uvsArray: seq<JsValue>)

  // ---------------------------------------------------------------- numbers of a line

  /** What `parseFloatArrayOrErr` makes of the tokens of a line: every token after
      the first as a number, or a throw when one of them is not a number. */
  function ParseComponents(tokens: seq<string>, parse: ParseFloatOracle): (r: Outcome<seq<JsValue>>)
    ensures r.Returned? <==> forall i :: 1 <= i < |tokens| ==> parse(tokens[i]).Some?
    ensures r.Returned? ==> |r.value| == (if |tokens| == 0 then 0 else |tokens| - 1) &&
                            forall i :: 1 <= i < |tokens| ==> r.value[i - 1] == Num(parse(tokens[i]).value)
  {
    if |tokens| <= 1 then Returned([])
    else
      var n := |tokens| - 1;
      match ParseComponents(tokens[..n], parse)
      case Thrown => Thrown
      case Returned(vs) =>
        if parse(tokens[n]).Some? then Returned(vs + [Num(parse(tokens[n]).value)]) else Thrown
  }

  /** `parseFloatArrayOrErr`: parse the tokens after the first in order, throwing
      at the first that is not a number. */
  method ParseFloatArrayOrErr(srcArray: seq<string>, parse: ParseFloatOracle) returns (r: Outcome<seq<JsValue>>)
    ensures r == ParseComponents(srcArray, parse)
  {
    var outArray := [];
    if |srcArray| <= 1 {
      return Returned(outArray);
    }
    var inpIdx := 1;
    while inpIdx < |srcArray|
      invariant 1 <= inpIdx <= |srcArray|
      invariant ParseComponents(srcArray[..inpIdx], parse) == Returned(outArray)
    {
      assert srcArray[..inpIdx + 1][..inpIdx] == srcArray[..inpIdx];
      var parsed := ParseFloat(parse, srcArray[inpIdx]);
      if parsed.NaN? {
        ThrowStays(srcArray, inpIdx + 1, parse);
        return Thrown;
      }
      outArray := outArray + [parsed];
      inpIdx := inpIdx + 1;
    }
    assert srcArray[..inpIdx] == srcArray;
    return Returned(outArray);
  }

  /** Once a prefix of the tokens throws, the whole line throws. */
  lemma {:induction false} ThrowStays(tokens: seq<string>, k: nat, parse: ParseFloatOracle)
    requires 1 <= k <= |tokens| && ParseComponents(tokens[..k], parse).Thrown?
    ensures ParseComponents(tokens, parse).Thrown?
    decreases |tokens| - k
  {
    if k < |tokens| {
      assert tokens[..k + 1][..k] == tokens[..k];
      ThrowStays(tokens, k + 1, parse);
    } else {
      assert tokens[..k] == tokens;
    }
  }

  /** `rawUVs[1] = flipUV(rawUVs[1])` with `flipUV(v) = Math.abs(1 - v)`: slot 1 is
      flipped; an array shorter than two grows to two, a missing slot 0 being
      a hole, and `1 - undefined` is NaN. */
  function FlipSecond(uvs: seq<JsValue>): (r: seq<JsValue>)
    ensures |r| == if |uvs| < 2 then 2 else |uvs|
    ensures r[1] == AbsOneMinus(Get(uvs, 1))
    ensures forall i :: 0 <= i < |uvs| && i != 1 ==> r[i] == uvs[i]
    ensures |uvs| == 0 ==> r[0] == Undefined
  {
    if |uvs| >= 2 then uvs[1 := AbsOneMinus(uvs[1])]
    else if |uvs| == 1 then uvs + [NaN]
    else [Undefined, NaN]
  }

  // ---------------------------------------------------------------- faces

  /** The indices one corner token `p`, `p/t`, `p/t/n` or `p//n` contributes. */
  datatype Corner = Corner(pos: JsValue, uv: Option<JsValue>, nrm: Option<JsValue>)

  /** A corner token: its position index made 0-based; a UV index only when the
      second piece is a number; a normal index whenever there is a third piece. */
  function ParseCorner(token: string, parse: ParseFloatOracle): (c: Corner)
    ensures c.pos == SubConst(ParseFloat(parse, Split(token, '/')[0]), 1.0)
    ensures c.nrm.Some? <==> |Split(token, '/')| >= 3
  {
    var pieces := Split(token, '/');
    var pos := SubConst(ParseFloat(parse, pieces[0]), 1.0);
    if |pieces| == 1 then Corner(pos, None, None)
    else
      var uv := ParseFloat(parse, pieces[1]);
      var uvIdx := if uv.NaN? then None else Some(SubConst(uv, 1.0));
      if |pieces| == 2 then Corner(pos, uvIdx, None)
      else Corner(pos, uvIdx, Some(SubConst(ParseFloat(parse, pieces[2]), 1.0)))
  }

  /** The value of an index that is there, as a list of zero or one entry. */
  function Listed(o: Option<JsValue>): seq<JsValue> {
    if o.Some? then [o.value] else []
  }

  /** `undefined` for an empty list. */
  function NonEmpty(vs: seq<JsValue>): Option<seq<JsValue>> {
    if vs == [] then None else Some(vs)
  }

  /** The position, UV and normal lists after the corner tokens tokens[1..k + 1]. */
  function FaceSoFar(tokens: seq<string>, k: nat, parse: ParseFloatOracle): (lists: (seq<JsValue>, seq<JsValue>, seq<JsValue>))
    requires k < |tokens|
    ensures |lists.0| == k && |lists.1| <= k && |lists.2| <= k
    ensures forall i :: 0 <= i < k ==> lists.0[i] == ParseCorner(tokens[i + 1], parse).pos
  {
    if k == 0 then ([], [], [])
    else
      var before, c := FaceSoFar(tokens, k - 1, parse), ParseCorner(tokens[k], parse);
      (before.0 + [c.pos], before.1 + Listed(c.uv), before.2 + Listed(c.nrm))
  }

  /** The triangle a face line with corner tokens `tokens[1..]` adds: every
      position index made 0-based, and the UV and normal indices there are. */
  function FaceSpec(tokens: seq<string>, parse: ParseFloatOracle): (t: Tri)
    requires |tokens| >= 1
    ensures |t.posIndices| == |tokens| - 1
    ensures forall i :: 1 <= i < |tokens| ==>
              t.posIndices[i - 1] == SubConst(ParseFloat(parse, Split(tokens[i], '/')[0]), 1.0)
    ensures t.uvIndices != Some([]) && t.nrmIndices != Some([])
  {
    var lists := FaceSoFar(tokens, |tokens| - 1, parse);
    Tri(lists.0, NonEmpty(lists.1), NonEmpty(lists.2))
  }

  /** One corner token of the face loop: its position index is pushed, and its
      UV and normal indices when it has them. */
  method AddCorner(posIndices: seq<JsValue>, uvIndices: seq<JsValue>, nrmIndices: seq<JsValue>,
                   token: string, parse: ParseFloatOracle)
    returns (pos: seq<JsValue>, uv: seq<JsValue>, nrm: seq<JsValue>)
    ensures var c := ParseCorner(token, parse);
            pos == posIndices + [c.pos] && uv == uvIndices + Listed(c.uv) && nrm == nrmIndices + Listed(c.nrm)
  {
    var c := ParseCorner(token, parse);
    pos, uv, nrm := posIndices + [c.pos], uvIndices, nrmIndices;
    assert uvIndices + [] == uvIndices && nrmIndices + [] == nrmIndices;
    if c.uv.Some? {
      uv := uv + [c.uv.value];
    }
    if c.nrm.Some? {
      nrm := nrm + [c.nrm.value];
    }
  }

  /** The face branch of `parseObj` for a line of exactly four tokens: each corner
      adds its indices, then an empty UV or normal list is left out. */
  method ParseFace(lineTokens: seq<string>, parse: ParseFloatOracle) returns (tri: Tri)
    requires |lineTokens| == 4
    ensures tri == FaceSpec(lineTokens, parse)
  {
    var posIndices, uvIndices, nrmIndices := [], [], [];
    var pointIdx := 1;
    while pointIdx < |lineTokens|
      invariant 1 <= pointIdx <= |lineTokens|
      invariant (posIndices, uvIndices, nrmIndices) == FaceSoFar(lineTokens, pointIdx - 1, parse)
    {
      posIndices, uvIndices, nrmIndices := AddCorner(posIndices, uvIndices, nrmIndices, lineTokens[pointIdx], parse);
      pointIdx := pointIdx + 1;
    }
    tri := Tri(posIndices, NonEmpty(uvIndices), NonEmpty(nrmIndices));
  }

  /** A corner written `p//n` has no UV index: the empty second piece does not
      parse. Its position and normal indices are made 0-based. */
  lemma MissingUvOmitted(p: string, n: string, parse: ParseFloatOracle)
    requires '/' !in p && '/' !in n && parse("").None?
    ensures ParseCorner(p + "//" + n, parse) ==
            Corner(SubConst(ParseFloat(parse, p), 1.0), None, Some(SubConst(ParseFloat(parse, n), 1.0)))
  {
    assert p + "//" + n == p + ['/'] + ("" + ['/'] + n);
    SplitAtSep(p, '/', "" + ['/'] + n);
    SplitAtSep("", '/', n);
    SplitWithoutSep(n, '/');
  }

  // ---------------------------------------------------------------- lines

  /** A line `parseObj` skips before splitting it: a comment, an `o` or an `s` line. */
  predicate Skipped(line: string) {
    |line| > 0 && (line[0] == '#' || line[0] == 'o' || line[0] == 's')
  }

  /** A line whose numbers are parsed: `v`, `vn` or `vt`. */
  predicate NumericLine(tokens: seq<string>)
    requires |tokens| >= 1
  {
    tokens[0] == "v" || tokens[0] == "vn" || tokens[0] == "vt"
  }

  /** What one line does to the raw lists. */
  function LineStep(raw: RawData, line: string, parse: ParseFloatOracle): (r: Outcome<RawData>)
    ensures Skipped(line) ==> r == Returned(raw)
    ensures var tokens := Split(line, ' ');
            r.Thrown? <==> !Skipped(line) && NumericLine(tokens) && exists i :: 1 <= i < |tokens| && parse(tokens[i]).None?
    ensures var tokens := Split(line, ' ');
            r.Returned? && !(!Skipped(line) && tokens[0] == "f" && |tokens| == 4) ==> r.value.tris == raw.tris
    ensures var tokens := Split(line, ' ');
            !Skipped(line) && tokens[0] == "f" && |tokens| == 4 ==> r == Returned(raw.(tris := raw.tris + [FaceSpec(tokens, parse)]))
  {
    if Skipped(line) then Returned(raw)
    else
      var tokens := Split(line, ' ');
      if tokens[0] == "v" then
        match ParseComponents(tokens, parse)
        case Thrown => Thrown
        case Returned(vs) => Returned(raw.(positions := raw.positions + [vs]))
      else if tokens[0] == "vn" then
        match ParseComponents(tokens, parse)
        case Thrown => Thrown
        case Returned(vs) => Returned(raw.(normals := raw.normals + [vs]))
      else if tokens[0] == "vt" then
        match ParseComponents(tokens, parse)
        case Thrown => Thrown
        case Returned(vs) => Returned(raw.(uvs := raw.uvs + [FlipSecond(vs)]))
      else if tokens[0] == "f" then
        if |tokens| != 4 then Returned(raw) else Returned(raw.(tris := raw.tris + [FaceSpec(tokens, parse)]))
      else Returned(raw)
  }

  /** A `vt` line with two numeric components adds the UV (u, |1 - v|). */
  lemma UvFlipped(raw: RawData, u: string, v: string, parse: ParseFloatOracle)
    requires ' ' !in u && ' ' !in v && parse(u).Some? && parse(v).Some?
    ensures LineStep(raw, "vt " + u + " " + v, parse) ==
            Returned(raw.(uvs := raw.uvs + [[Num(parse(u).value), Num(AbsReal(1.0 - parse(v).value))]]))
  {
    var line := "vt " + u + " " + v;
    assert line == "vt" + [' '] + (u + [' '] + v);
    SplitAtSep("vt", ' ', u + [' '] + v);
    SplitAtSep(u, ' ', v);
    SplitWithoutSep(v, ' ');
    var tokens := Split(line, ' ');
    assert tokens == ["vt", u, v];
    var parsed := ParseComponents(tokens, parse);
    assert parsed.Returned? by { assert tokens[1] == u && tokens[2] == v; }
    assert |parsed.value| == 2 && parsed.value[0] == Num(parse(tokens[1]).value) &&
           parsed.value[1] == Num(parse(tokens[2]).value);
    var flipped := [Num(parse(u).value), Num(AbsReal(1.0 - parse(v).value))];
    assert FlipSecond(parsed.value) == flipped by { assert tokens[1] == u && tokens[2] == v; }
    assert line[0] == 'v' && tokens[0] != "v";
    assert LineStep(raw, line, parse) == Returned(raw.(uvs := raw.uvs + [flipped]));
  }

  /** The raw lists after the lines, read in order from `raw`; a throw ends it. */
  function ParseLinesFrom(raw: RawData, lines: seq<string>, parse: ParseFloatOracle): Outcome<RawData> {
    if lines == [] then Returned(raw)
    else ThenLine(ParseLinesFrom(raw, lines[..|lines| - 1], parse), lines[|lines| - 1], parse)
  }

  /** Read one more line after an outcome; a throw stays a throw. */
  function ThenLine(o: Outcome<RawData>, line: string, parse: ParseFloatOracle): Outcome<RawData> {
    match o
    case Thrown => Thrown
    case Returned(raw) => LineStep(raw, line, parse)
  }

  /** Carry on reading lines after an outcome. */
  function Then(o: Outcome<RawData>, lines: seq<string>, parse: ParseFloatOracle): Outcome<RawData> {
    match o
    case Thrown => Thrown
    case Returned(raw) => ParseLinesFrom(raw, lines, parse)
  }

  /** Reading a + b is reading a, then b. */
  lemma {:induction false} ParseLinesAppend(raw: RawData, a: seq<string>, b: seq<string>, parse: ParseFloatOracle)
    ensures ParseLinesFrom(raw, a + b, parse) == Then(ParseLinesFrom(raw, a, parse), b, parse)
  {
    if b == [] {
      assert a + b == a;
    } else {
      var n := |b| - 1;
      assert (a + b)[..|a + b| - 1] == a + b[..n];
      ParseLinesAppend(raw, a, b[..n], parse);
    }
  }

  /** A comment, `o` or `s` line changes nothing wherever it stands. */
  lemma SkippedLineChangesNothing(raw: RawData, a: seq<string>, line: string, b: seq<string>, parse: ParseFloatOracle)
    requires Skipped(line)
    ensures ParseLinesFrom(raw, a + [line] + b, parse) == ParseLinesFrom(raw, a + b, parse)
  {
    ParseLinesAppend(raw, a + [line], b, parse);
    ParseLinesAppend(raw, a, [line], parse);
    ParseLinesAppend(raw, a, b, parse);
    assert [line][..0] == [];
  }

  /** A `v`, `vn` or `vt` line with a component that is not a number makes the
      whole parse throw once it is reached. */
  lemma BadComponentThrows(raw: RawData, a: seq<string>, line: string, b: seq<string>, parse: ParseFloatOracle)
    requires ParseLinesFrom(raw, a, parse).Returned?
    requires var tokens := Split(line, ' ');
             !Skipped(line) && NumericLine(tokens) && exists i :: 1 <= i < |tokens| && parse(tokens[i]).None?
    ensures ParseLinesFrom(raw, a + [line] + b, parse) == Thrown
  {
    ParseLinesAppend(raw, a + [line], b, parse);
    ParseLinesAppend(raw, a, [line], parse);
    assert [line][..0] == [];
  }

  // ---------------------------------------------------------------- expansion

  /** An index value that names an entry of a table of n entries. */
  predicate InRange(idx: JsValue, n: nat) {
    idx.Num? && idx.value == idx.value.Floor as real && 0 <= idx.value.Floor < n
  }

  /** `table[idx]` for an index value: the entry for an integral index in
      range, else `undefined`. */
  function Lookup(table: seq<seq<JsValue>>, idx: JsValue): seq<JsValue> {
    if InRange(idx, |table|) then table[idx.value.Floor]
    else [Undefined]
  }

  /** `acc = acc.concat(table[idx])` for each index in turn. */
  function Gather(table: seq<seq<JsValue>>, idxs: seq<JsValue>): seq<JsValue> {
    if idxs == [] then [] else Gather(table, idxs[..|idxs| - 1]) + Lookup(table, idxs[|idxs| - 1])
  }

  /** Corner colour (1, 0, 1) three times. */
  const Magenta3: seq<real> := [1.0, 0.0, 1.0, 1.0, 0.0, 1.0, 1.0, 0.0, 1.0]

  /** The model after expanding the first k triangles. */
  function Expand(raw: RawData, k: nat): ModelData
    requires k <= |raw.tris|
  {
    if k == 0 then ModelData([], [], [], [])
    else
      var m, t := Expand(raw, k - 1), raw.tris[k - 1];
      ModelData(m.vertArray + Gather(raw.positions, t.posIndices),
                m.colorArray + Magenta3,
                m.indexArray + [3 * (k - 1), 3 * (k - 1) + 1, 3 * (k - 1) + 2],
                m.uvsArray + (if t.uvIndices.Some? then Gather(raw.uvs, t.uvIndices.value) else []))
  }

  /** The result of `parseObj`: undefined for empty text, a throw from a line,
      else the expanded model. */
  function ParseObjSpec(source: string, parse: ParseFloatOracle): (r: Outcome<Option<ModelData>>)
    ensures r == Returned(None) <==> source == []
  {
    if source == [] then Returned(None)
    else
      match ParseLinesFrom(EmptyRaw, Split(source, '\n'), parse)
      case Thrown => Thrown
      case Returned(raw) => Returned(Some(Expand(raw, |raw.tris|)))
  }

  /** The index array is 0, 1, ..., 3T - 1 for T triangles. */
  lemma {:induction false} IndicesCount(raw: RawData, k: nat)
    requires k <= |raw.tris|
    ensures Expand(raw, k).indexArray == seq(3 * k, i => i)
  {
    if k > 0 {
      IndicesCount(raw, k - 1);
    }
  }

  /** Entry j of the colour block of one triangle. */
  lemma MagentaAt(j: nat)
    requires j < 9
    ensures Magenta3[j] == if j % 3 == 1 then 0.0 else 1.0
  {
  }

  /** Whole blocks of nine leave the position within a corner unchanged. */
  lemma ModThreeShift(m: nat, j: nat)
    ensures (9 * m + j) % 3 == j % 3
  {
    var q := j / 3;
    assert j == 3 * q + j % 3;
    assert 9 * m + j == 3 * (3 * m + q) + j % 3;
  }

  /** Appending one triangle's colours to 9n entries of the (1, 0, 1) pattern
      extends the pattern by nine entries. */
  lemma MagentaAppended(before: seq<real>, n: nat)
    requires |before| == 9 * n
    requires forall i :: 0 <= i < 9 * n ==> before[i] == if i % 3 == 1 then 0.0 else 1.0
    ensures |before + Magenta3| == 9 * (n + 1)
    ensures forall i :: 0 <= i < 9 * (n + 1) ==> (before + Magenta3)[i] == if i % 3 == 1 then 0.0 else 1.0
  {
    var c := before + Magenta3;
    forall i | 9 * n <= i < 9 * (n + 1)
      ensures c[i] == if i % 3 == 1 then 0.0 else 1.0
    {
      var j := i - 9 * n;
      MagentaAt(j);
      ModThreeShift(n, j);
    }
  }

  /** Every corner is coloured (1, 0, 1): 9T entries for T triangles. */
  lemma {:induction false} ColorsMagenta(raw: RawData, k: nat)
    requires k <= |raw.tris|
    ensures |Expand(raw, k).colorArray| == 9 * k
    ensures forall i :: 0 <= i < 9 * k ==> Expand(raw, k).colorArray[i] == if i % 3 == 1 then 0.0 else 1.0
  {
    if k > 0 {
      ColorsMagenta(raw, k - 1);
      MagentaAppended(Expand(raw, k - 1).colorArray, k - 1);
    }
  }

  /** When every entry has three components, indices in range gather three
      values each. */
  lemma {:induction false} GatherLength(table: seq<seq<JsValue>>, idxs: seq<JsValue>)
    requires forall j :: 0 <= j < |table| ==> |table[j]| == 3
    requires forall i :: 0 <= i < |idxs| ==> InRange(idxs[i], |table|)
    ensures |Gather(table, idxs)| == 3 * |idxs|
  {
    if idxs != [] {
      GatherLength(table, idxs[..|idxs| - 1]);
    }
  }

  /** A slice within the front part of a concatenation. */
  lemma SliceOfFront<T>(front: seq<T>, back: seq<T>, lo: nat, hi: nat)
    requires lo <= hi <= |front|
    ensures (front + back)[lo..hi] == front[lo..hi]
  {
  }

  /** The back part of a concatenation, sliced out again. */
  lemma SliceOfBack<T>(front: seq<T>, back: seq<T>)
    ensures (front + back)[|front|..|front| + |back|] == back
  {
  }

  /** Indices in range gather the entries they name, in order: when every entry
      has three components, corner i's values, the entry its index names, sit
      at 3i, 3i + 1 and 3i + 2. */
  lemma {:induction false} GatherInRange(table: seq<seq<JsValue>>, idxs: seq<JsValue>, i: nat)
    requires forall j :: 0 <= j < |table| ==> |table[j]| == 3
    requires forall k :: 0 <= k < |idxs| ==> InRange(idxs[k], |table|)
    requires i < |idxs|
    ensures |Gather(table, idxs)| == 3 * |idxs|
    ensures Gather(table, idxs)[3 * i..3 * i + 3] == Lookup(table, idxs[i])
  {
    var n := |idxs| - 1;
    var before := Gather(table, idxs[..n]);
    GatherLength(table, idxs);
    GatherLength(table, idxs[..n]);
    var g, last := Gather(table, idxs), Lookup(table, idxs[n]);
    assert g == before + last;
    assert |before| == 3 * n;
    if i < n {
      GatherInRange(table, idxs[..n], i);
      assert idxs[..n][i] == idxs[i];
      SliceOfFront(before, last, 3 * i, 3 * i + 3);
    } else {
      assert |last| == 3 by { assert InRange(idxs[n], |table|); }
      SliceOfBack(before, last);
    }
  }

  // ---------------------------------------------------------------- the parser

  /** One line of the loop of `parseObj`. */
  method ParseLine(raw: RawData, line: string, parse: ParseFloatOracle) returns (r: Outcome<RawData>)
    ensures r == LineStep(raw, line, parse)
  {
    if Skipped(line) {
      return Returned(raw);
    }
    var lineTokens := Split(line, ' ');
    if lineTokens[0] == "v" {
      var parsed := ParseFloatArrayOrErr(lineTokens, parse);
      if parsed.Thrown? { return Thrown; }
      r := Returned(raw.(positions := raw.positions + [parsed.value]));
    } else if lineTokens[0] == "vn" {
      var parsed := ParseFloatArrayOrErr(lineTokens, parse);
      if parsed.Thrown? { return Thrown; }
      r := Returned(raw.(normals := raw.normals + [parsed.value]));
    } else if lineTokens[0] == "vt" {
      var parsed := ParseFloatArrayOrErr(lineTokens, parse);
      if parsed.Thrown? { return Thrown; }
      r := Returned(raw.(uvs := raw.uvs + [FlipSecond(parsed.value)]));
    } else if lineTokens[0] == "f" {
      if |lineTokens| != 4 {
        return Returned(raw);
      }
      var tri := ParseFace(lineTokens, parse);
      r := Returned(raw.(tris := raw.tris + [tri]));
    } else {
      r := Returned(raw);
    }
  }

  /** `acc.concat(table[idx])` for each index, as the `forEach` does. */
  method ConcatLookups(acc: seq<JsValue>, table: seq<seq<JsValue>>, idxs: seq<JsValue>) returns (r: seq<JsValue>)
    ensures r == acc + Gather(table, idxs)
  {
    r := acc;
    for i := 0 to |idxs|
      invariant r == acc + Gather(table, idxs[..i])
    {
      assert idxs[..i + 1][..i] == idxs[..i];
      r := r + Lookup(table, idxs[i]);
    }
    assert idxs[..|idxs|] == idxs;
  }

  /** The colour loop for one triangle: (1, 0, 1) for each of its three corners. */
  method AppendCornerColors(col: seq<real>) returns (r: seq<real>)
    ensures r == col + Magenta3
  {
    r := col;
    for i := 0 to 3
      invariant r == col + Magenta3[..3 * i]
    {
      assert Magenta3[..3 * (i + 1)] == Magenta3[..3 * i] + [1.0, 0.0, 1.0];
      r := r + [1.0, 0.0, 1.0];
    }
  }

  /** One triangle of the expansion loop: its corners' positions and UVs, its
      colours and its three indices appended to the four arrays `m` holds. */
  method ExpandTri(raw: RawData, objIdx: nat, m: ModelData) returns (next: ModelData)
    requires objIdx < |raw.tris| && m == Expand(raw, objIdx)
    ensures next == Expand(raw, objIdx + 1)
  {
    var tri := raw.tris[objIdx];
    var adjustedPos := ConcatLookups(m.vertArray, raw.positions, tri.posIndices);
    var adjustedUVs := m.uvsArray;
    if tri.uvIndices.Some? {
      adjustedUVs := ConcatLookups(adjustedUVs, raw.uvs, tri.uvIndices.value);
    }
    var adjustedCol := AppendCornerColors(m.colorArray);
    var triFirstIdx := objIdx * 3;
    next := ModelData(adjustedPos, adjustedCol, m.indexArray + [triFirstIdx, triFirstIdx + 1, triFirstIdx + 2],
                      adjustedUVs);
  }

  /** The expansion loop of `parseObj`: each triangle's corners get their own
      positions, UVs, colours and indices. */
  method ExpandTris(raw: RawData) returns (m: ModelData)
    ensures m == Expand(raw, |raw.tris|)
  {
    m := ModelData([], [], [], []);
    for objIdx := 0 to |raw.tris|
      invariant m == Expand(raw, objIdx)
    {
      m := ExpandTri(raw, objIdx, m);
    }
  }

  /** `parseObj`: undefined for empty text; else read every line, throwing at a
      bad number, then expand the triangles. */
  method ParseObj(source: string, parse: ParseFloatOracle) returns (r: Outcome<Option<ModelData>>)
    ensures r == ParseObjSpec(source, parse)
  {
    if |source| == 0 {
      return Returned(None);
    }
    var srcLines := Split(source, '\n');
    var raw := EmptyRaw;
    var lineIdx := 0;
    while lineIdx < |srcLines|
      invariant 0 <= lineIdx <= |srcLines|
      invariant ParseLinesFrom(EmptyRaw, srcLines[..lineIdx], parse) == Returned(raw)
    {
      assert srcLines[..lineIdx + 1][..lineIdx] == srcLines[..lineIdx];
      var step := ParseLine(raw, srcLines[lineIdx], parse);
      if step.Thrown? {
        ParseLinesAppend(EmptyRaw, srcLines[..lineIdx + 1], srcLines[lineIdx + 1..], parse);
        assert srcLines[..lineIdx + 1] + srcLines[lineIdx + 1..] == srcLines;
        return Thrown;
      }
      raw := step.value;
      lineIdx := lineIdx + 1;
    }
    assert srcLines[..lineIdx] == srcLines;
    var model := ExpandTris(raw);
    return Returned(Some(model));
  }
}
