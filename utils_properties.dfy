/** Properties of the translator's output that relate several calls: the
    `enum` union can be read back, documentation-only fields never matter,
    and worked examples. */
module UtilsProperties {
  import opened Types
  import opened JsString
  import opened Utils

  // ---------------------------------------------------------------------
  // Reading a string-literal union back
  // ---------------------------------------------------------------------

  /** Position of the first `c` in `t`, or `|t|` when there is none. */
  function IndexOf(t: string, c: char): (k: nat)
    ensures k <= |t|
    ensures forall j :: 0 <= j < k ==> t[j] != c
    ensures k < |t| ==> t[k] == c
    decreases |t|
  {
    if t == [] then 0 else if t[0] == c then 0 else 1 + IndexOf(t[1..], c)
  }

  /** Reads `'v1' | 'v2' | ... | 'vn'` (n >= 1), taking each literal to end
      at the next single quote. */
  function ParseLiterals(t: string): Option<seq<string>>
    decreases |t|
  {
    if |t| < 2 || t[0] != '\'' then None
    else
      var k := IndexOf(t[1..], '\'');
      if k == |t| - 1 then None
      else
        var v, rest := t[1..k + 1], t[k + 2..];
        if rest == [] then Some([v])
        else if StartsWith(rest, " | ") then
          match ParseLiterals(rest[3..])
          case None => None
          case Some(vs) => Some([v] + vs)
        else None
  }

  /** The inverse of `EnumUnion` on quote-free values: the empty text is
      the empty union. */
  function ParseUnion(t: string): Option<seq<string>>
  {
    if t == [] then Some([]) else ParseLiterals(t)
  }

  predicate QuoteFree(vals: seq<string>)
  {
    forall i :: 0 <= i < |vals| ==> '\'' !in vals[i]
  }

  lemma {:induction false} ParseLiteralsOfUnion(vals: seq<string>)
    requires |vals| >= 1 && QuoteFree(vals)
    ensures ParseLiterals(EnumUnion(vals)) == Some(vals)
    decreases |vals|
  {
    if |vals| == 1 {
      EnumUnionCons(vals);
      ParseLiteralsStep(vals[0], "");
      assert [vals[0]] == vals;
    } else {
      UnionStep(vals);
      QuoteFreeTail(vals);
      ParseLiteralsOfUnion(vals[1..]);
      assert [vals[0]] + vals[1..] == vals;
    }
  }

  /** Reading a union of two or more values reads the first literal and
      then the union of the rest. */
  lemma UnionStep(vals: seq<string>)
    requires |vals| >= 2 && QuoteFree(vals)
    ensures ParseLiterals(EnumUnion(vals)) ==
      match ParseLiterals(EnumUnion(vals[1..]))
      case None => None
      case Some(vs) => Some([vals[0]] + vs)
  {
    var rest := EnumUnion(vals[1..]);
    var tail := " | " + rest;
    EnumUnionCons(vals);
    assert EnumUnion(vals) == "'" + vals[0] + "'" + tail;
    ParseLiteralsStep(vals[0], tail);
    assert tail[3..] == rest;
  }

  lemma QuoteFreeTail(vals: seq<string>)
    requires |vals| >= 1 && QuoteFree(vals)
    ensures QuoteFree(vals[1..])
  {
    forall i | 0 <= i < |vals[1..]|
      ensures '\'' !in vals[1..][i]
    {
      assert vals[1..][i] == vals[i + 1];
    }
  }

  /** One step of the reader: a quoted literal followed by nothing ends
      the union, followed by ` | ` continues it. */
  lemma ParseLiteralsStep(v: string, tail: string)
    requires '\'' !in v
    ensures tail == [] ==> ParseLiterals("'" + v + "'" + tail) == Some([v])
    ensures StartsWith(tail, " | ") ==>
      ParseLiterals("'" + v + "'" + tail) ==
        match ParseLiterals(tail[3..])
        case None => None
        case Some(vs) => Some([v] + vs)
  {
    ParseLiteralsHead(v, tail);
  }

  /** The first quoted literal, then the rest of the union. */
  lemma EnumUnionCons(vals: seq<string>)
    requires |vals| >= 1
    ensures EnumUnion(vals) == "'" + vals[0] + "'" + (if |vals| == 1 then "" else " | " + EnumUnion(vals[1..]))
  {
    var quoted := QuoteAll(vals);
    assert quoted[0] == "'" + vals[0] + "'";
    if |vals| > 1 {
      assert quoted[1..] == QuoteAll(vals[1..]);
      assert [quoted[0]] + quoted[1..] == quoted;
      JoinCons(quoted[0], quoted[1..], " | ");
    }
  }

  /** Reading one quoted literal: it ends at its closing quote and the
      text after the quote is left over. */
  lemma ParseLiteralsHead(v: string, tail: string)
    requires '\'' !in v
    ensures var t := "'" + v + "'" + tail;
      |t| >= 2 && t[0] == '\'' && IndexOf(t[1..], '\'') == |v|
      && t[1..|v| + 1] == v && t[|v| + 2..] == tail
  {
    var t := "'" + v + "'" + tail;
    assert t[1..] == v + "'" + tail;
    assert (v + "'" + tail)[|v|] == '\'';
  }

  /** A string `enum` is emitted as its values, each single-quoted, in
      source order, separated by ` | `: reading the text back recovers the
      values exactly, provided none of them holds a single quote. */
  lemma EnumUnionRoundTrip(vals: seq<string>)
    requires QuoteFree(vals)
    ensures ParseUnion(EnumUnion(vals)) == Some(vals)
  {
    if vals != [] {
      ParseLiteralsOfUnion(vals);
      assert EnumUnion(vals)[0] == '\'';
    }
  }

  /** The same, for the node: `type: 'string'` with an `enum` (and no
      truthy `$ref`). */
  lemma StringEnumRoundTrip(schema: Schema, name: Option<string>)
    requires !Truthy(schema.refPointer) && schema.schemaType == Some("string")
    requires schema.enumValues.Some? && QuoteFree(schema.enumValues.value)
    ensures ParseUnion(SchemaToTypeScript(schema, name)) == Some(schema.enumValues.value)
  {
    EnumUnionRoundTrip(schema.enumValues.value);
  }

  /** Literals are not escaped, so a value holding a quote can be confused
      with two values. */
  lemma EnumLiteralsNotEscaped()
    ensures EnumUnion(["a' | 'b"]) == EnumUnion(["a", "b"])
  {
    var two := QuoteAll(["a", "b"]);
    assert two[0] == "'a'" && two[1] == "'b'";
    assert Join(two, " | ") == "'a' | 'b'";
    var one := QuoteAll(["a' | 'b"]);
    assert one[0] == "'a' | 'b'";
  }

  // ---------------------------------------------------------------------
  // Documentation-only fields
  // ---------------------------------------------------------------------

  /** The node with `format` and `description` cleared at every depth. */
  function Undocumented(s: Schema): (u: Schema)
    decreases s
  {
    var items := if s.items.Some? then Some(Undocumented(s.items.value)) else None;
    var properties :=
      if s.properties.Properties? then
        var entries := s.properties.entries;
        Properties(seq(|entries|, i requires 0 <= i < |entries| =>
          Property(entries[i].key, Undocumented(entries[i].schema))))
      else NoProperties;
    s.(format := None, description := None, items := items, properties := properties)
  }

  /** `format` and `description` never influence the emitted type, at any
      depth of the tree. */
  lemma {:induction false} DocumentationIgnored(schema: Schema, name: Option<string>)
    ensures SchemaToTypeScript(Undocumented(schema), name) == SchemaToTypeScript(schema, name)
    decreases schema, 1
  {
    var u := Undocumented(schema);
    if !Truthy(schema.refPointer) && schema.schemaType == Some("array") && schema.items.Some? {
      DocumentationIgnored(schema.items.value, None);
    } else if !Truthy(schema.refPointer) && schema.schemaType == Some("object") && schema.properties.Properties? {
      RecordLinesUndocumented(schema);
    }
  }

  lemma {:induction false} RecordLinesUndocumented(schema: Schema)
    requires schema.properties.Properties?
    ensures Undocumented(schema).properties.Properties?
    ensures RecordLines(Undocumented(schema)) == RecordLines(schema)
    decreases schema, 0
  {
    var u := Undocumented(schema);
    var entries := schema.properties.entries;
    forall i | 0 <= i < |entries|
      ensures RecordLines(u)[i] == RecordLines(schema)[i]
    {
      DocumentationIgnored(entries[i].schema, None);
    }
  }

  // ---------------------------------------------------------------------
  // Worked examples
  // ---------------------------------------------------------------------

  /** `GET /a/{id}/b` is `getAB`, also when `operationId` is empty; a
      non-empty `operationId` wins. */
  lemma MethodNameExample(path: string)
    requires path == "/a/{id}/b"
    ensures GenerateMethodName("GET", path, None) == "getAB"
    ensures GenerateMethodName("GET", path, Some("")) == "getAB"
    ensures GenerateMethodName("GET", path, Some("listB")) == "listB"
  {
    assert path == "/" + "a" + "/{id}/" + "b";
    ParamPathMethodName("GET", path, "a", "b");
    LowerGet("GET");
    assert Capitalize("a") == "A" && Capitalize("b") == "B";
    assert "get" + "A" + "B" == "getAB";
  }

  /** `GET /users/{id}/orders` is `getUsersOrders`. */
  lemma MethodNameNestedExample(path: string)
    requires path == "/users/{id}/orders"
    ensures GenerateMethodName("GET", path, None) == "getUsersOrders"
  {
    UsersOrdersPath(path);
    ParamPathMethodName("GET", path, "users", "orders");
    LowerGet("GET");
    UsersOrdersName();
  }

  lemma UsersOrdersPath(path: string)
    requires path == "/users/{id}/orders"
    ensures path == "/" + "users" + "/{id}/" + "orders"
  {
  }

  lemma UsersOrdersName()
    ensures "get" + Capitalize("users") + Capitalize("orders") == "getUsersOrders"
  {
    assert Capitalize("users") == "Users" && Capitalize("orders") == "Orders";
  }

  /** The method name of `/x/{id}/y` for named segments `x` and `y`. */
  lemma ParamPathMethodName(verb: string, path: string, x: string, y: string)
    requires path == "/" + x + "/{id}/" + y
    requires '/' !in x && '/' !in y && |x| > 0 && x[0] != '{' && |y| > 0 && y[0] != '{'
    ensures GenerateMethodName(verb, path, None) == ToLowerCase(verb) + Capitalize(x) + Capitalize(y)
  {
    var segs := ["", x, "{id}", y];
    ParamPathSegments(path, x, y);
    MethodNameOfSegments(verb, segs);
    NamedSegmentTest(x);
    NamedSegmentTest(y);
    NamedSegmentsOfParamPath(x, y);
    CapitalizedPair(x, y);
  }

  lemma ParamPathSegments(path: string, x: string, y: string)
    requires path == "/" + x + "/{id}/" + y && '/' !in x && '/' !in y
    ensures Join(["", x, "{id}", y], "/") == path
    ensures forall i :: 0 <= i < 4 ==> '/' !in ["", x, "{id}", y][i]
  {
    JoinOfFour("", x, "{id}", y, "/");
    assert "/" + "{id}" + "/" == "/{id}/";
    assert "" + "/" + x + "/" + "{id}" + "/" + y == "/" + x + ("/" + "{id}" + "/") + y;
    assert '/' !in "{id}";
  }

  lemma NamedSegmentsOfParamPath(x: string, y: string)
    requires IsNamedSegment(x) && IsNamedSegment(y)
    ensures NamedSegments(["", x, "{id}", y]) == [x, y]
  {
    NamedSegmentTest("{id}");
    assert NamedSegments([y]) == [y] by { assert [y][1..] == []; }
    assert NamedSegments(["{id}", y]) == [y] by { assert ["{id}", y][1..] == [y]; }
    assert NamedSegments([x, "{id}", y]) == [x, y] by { assert [x, "{id}", y][1..] == ["{id}", y]; }
    assert ["", x, "{id}", y][1..] == [x, "{id}", y];
  }

  lemma CapitalizedPair(x: string, y: string)
    ensures Join(CapitalizeAll([x, y]), "") == Capitalize(x) + Capitalize(y)
  {
    JoinOfTwo(Capitalize(x), Capitalize(y), "");
    assert CapitalizeAll([x, y]) == [Capitalize(x), Capitalize(y)];
  }

  /** No collision avoidance: a collection path `/x` and its item path
      `/x/{id}` share a derived name, for every verb and every named `x`. */
  lemma MethodNameCollision(verb: string, x: string)
    requires '/' !in x && |x| > 0 && x[0] != '{'
    ensures GenerateMethodName(verb, "/" + x, None) == ToLowerCase(verb) + Capitalize(x)
    ensures GenerateMethodName(verb, "/" + x + "/{id}", None) == GenerateMethodName(verb, "/" + x, None)
  {
    var segs := ["", x];
    CollectionPathSegments(x);
    MethodNameOfSegments(verb, segs);
    NamedSegmentTest(x);
    NamedSegmentsOfCollection(x);
    assert CapitalizeAll([x]) == [Capitalize(x)];
    CollectionItemTypeNames(x);
    MethodNameCases(verb, "/" + x, None);
    MethodNameCases(verb, "/" + x + "/{id}", None);
  }

  lemma CollectionPathSegments(x: string)
    requires '/' !in x
    ensures Join(["", x], "/") == "/" + x
    ensures forall i :: 0 <= i < 2 ==> '/' !in ["", x][i]
  {
    JoinOfTwo("", x, "/");
    assert "" + "/" + x == "/" + x;
  }

  lemma NamedSegmentsOfCollection(x: string)
    requires IsNamedSegment(x)
    ensures NamedSegments(["", x]) == [x]
  {
    assert NamedSegments([x]) == [x] by { assert [x][1..] == []; }
    assert ["", x][1..] == [x];
  }

  /** A collection path and its item path have the same type name. */
  lemma CollectionItemTypeNames(x: string)
    requires '/' !in x
    ensures PathToTypeName("/" + x + "/{id}") == PathToTypeName("/" + x)
  {
    var segs := ["", x];
    CollectionPathSegments(x);
    ItemPathSegments(x);
    assert segs + ["{id}"] + [] == ["", x, "{id}"];
    assert "{id}"[..1] == "{" && '/' !in "{id}";
    PathParameterIgnored(segs, "{id}", []);
  }

  lemma ItemPathSegments(x: string)
    ensures Join(["", x, "{id}"], "/") == "/" + x + "/{id}"
  {
    JoinOfThree("", x, "{id}", "/");
    assert "" + "/" + x + "/" + "{id}" == "/" + x + ("/" + "{id}");
    assert "/" + "{id}" == "/{id}";
  }

  lemma LowerGet(verb: string)
    requires verb == "GET"
    ensures ToLowerCase(verb) == "get"
  {
  }

  lemma JoinOfTwo(a: string, b: string, sep: string)
    ensures Join([a, b], sep) == a + sep + b
  {
    JoinCons(a, [b], sep);
    assert [a] + [b] == [a, b];
  }

  lemma JoinOfThree(a: string, b: string, c: string, sep: string)
    ensures Join([a, b, c], sep) == a + sep + b + sep + c
  {
    JoinCons(a, [b, c], sep);
    assert [a] + [b, c] == [a, b, c];
    JoinOfTwo(b, c, sep);
  }

  lemma JoinOfFour(a: string, b: string, c: string, d: string, sep: string)
    ensures Join([a, b, c, d], sep) == a + sep + b + sep + c + sep + d
  {
    JoinCons(a, [b, c, d], sep);
    assert [a] + [b, c, d] == [a, b, c, d];
    JoinOfThree(b, c, d, sep);
  }

  /** `properties: {x: string, y: number}` with `required: [x]`: `x` is
      mandatory and `y` optional. */
  lemma ObjectExample(schema: Schema)
    requires schema == OfType("object").(
               properties := Properties([Property("x", OfType("string")), Property("y", OfType("number"))]),
               required := Some(["x"]))
    ensures SchemaToTypeScript(schema, None) == "{\n  x: string;\n  y?: number;\n}"
  {
    assert SchemaToTypeScript(schema, None) == "{\n" + Join(RecordLines(schema), "\n") + "\n}";
    var lines := RecordLines(schema);
    assert lines[0] == "  x: string;" by {
      assert SchemaToTypeScript(OfType("string"), None) == "string";
      assert OptionalMark("x", Some(["x"])) == "";
    }
    assert lines[1] == "  y?: number;" by {
      assert SchemaToTypeScript(OfType("number"), None) == "number";
      assert OptionalMark("y", Some(["x"])) == "?";
    }
    JoinTwoLines(lines);
  }

  lemma JoinTwoLines(lines: seq<string>)
    requires lines == ["  x: string;", "  y?: number;"]
    ensures "{\n" + Join(lines, "\n") + "\n}" == "{\n  x: string;\n  y?: number;\n}"
  {
  }

  /** The last segment of a component pointer names the component. */
  lemma ComponentPointerName(pointer: string)
    requires pointer == "#/components/schemas/User"
    ensures SchemaToTypeScript(RefTo(pointer), None) == "User"
  {
    var segs := ["#", "components", "schemas", "User"];
    PointerSegments(pointer, segs);
    SplitJoin(segs, '/');
    assert Last(Split(pointer, '/')) == "User";
  }

  lemma PointerSegments(pointer: string, segs: seq<string>)
    requires pointer == "#/components/schemas/User" && segs == ["#", "components", "schemas", "User"]
    ensures Join(segs, "/") == pointer
    ensures |segs| >= 1 && forall i :: 0 <= i < |segs| ==> '/' !in segs[i]
  {
    PointerJoin(pointer);
    assert '/' !in "#" && '/' !in "components" && '/' !in "schemas" && '/' !in "User";
  }

  lemma PointerJoin(pointer: string)
    requires pointer == "#/components/schemas/User"
    ensures Join(["#", "components", "schemas", "User"], "/") == pointer
  {
    JoinOfFour("#", "components", "schemas", "User", "/");
    var a := "#" + "/" + "components";
    assert a == "#/components";
    var b := a + "/" + "schemas";
    assert b == "#/components/schemas";
    assert b + "/" + "User" == pointer;
  }

  /** A response of `type: 'array'` over `$ref: '#/components/schemas/User'`
      is `Array<User>`. */
  lemma ArrayOfRefExample(pointer: string)
    requires pointer == "#/components/schemas/User"
    ensures SchemaToTypeScript(OfType("array").(items := Some(RefTo(pointer))), None) == "Array<User>"
  {
    ArrayWrapsItems(OfType("array").(items := Some(RefTo(pointer))), None);
    ComponentPointerName(pointer);
  }
}
