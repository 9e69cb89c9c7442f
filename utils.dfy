/** The code-generation helpers of src/utils.ts: identifier synthesis
    (`capitalize`, `pathToTypeName`, `generateMethodName`) and the
    schema-to-TypeScript translator (`schemaToTypeScript`). All of them are
    pure; the translator is structural recursion over the schema tree. */
module Utils {
  import opened Types
  import opened JsString

  /** JavaScript truthiness of an optional string: present and non-empty. */
  predicate Truthy(o: Option<string>)
  {
    o.Some? && o.value != []
  }

  // ---------------------------------------------------------------------
  // Identifier synthesis
  // ---------------------------------------------------------------------

  /** `capitalize`: upper-cases the first character and keeps the rest. */
  function Capitalize(s: string): (r: string)
    ensures |r| == |s|
    ensures forall i :: 1 <= i < |s| ==> r[i] == s[i]
    ensures s != [] ==> r[0] == ToUpperChar(s[0])
  {
    if s == [] then [] else [ToUpperChar(s[0])] + s[1..]
  }

  /** The segment filter of `pathToTypeName` and `generateMethodName`:
      non-empty and not a `{param}` placeholder. */
  predicate IsNamedSegment(seg: string)
  {
    seg != [] && !StartsWith(seg, "{")
  }

  /** The path segments that take part in a name, in path order. */
  function NamedSegments(segs: seq<string>): (r: seq<string>)
    ensures forall i :: 0 <= i < |r| ==> IsNamedSegment(r[i])
    decreases |segs|
  {
    if segs == [] then []
    else (if IsNamedSegment(segs[0]) then [segs[0]] else []) + NamedSegments(segs[1..])
  }

  function CapitalizeAll(segs: seq<string>): seq<string>
  {
    seq(|segs|, i requires 0 <= i < |segs| => Capitalize(segs[i]))
  }

  /** `pathToTypeName`: the capitalised named segments of the path,
      concatenated. */
  function PathToTypeName(apiPath: string): string
  {
    Join(CapitalizeAll(NamedSegments(Split(apiPath, '/'))), "")
  }

  /** `generateMethodName`: a truthy `operationId` verbatim, otherwise the
      lower-cased verb followed by the capitalised named segments. */
  function GenerateMethodName(verb: string, path: string, operationId: Option<string>): string
  {
    if Truthy(operationId) then operationId.value
    else ToLowerCase(verb) + Join(CapitalizeAll(NamedSegments(Split(path, '/'))), "")
  }

  // ---------------------------------------------------------------------
  // Schema translation
  // ---------------------------------------------------------------------

  function Quote(v: string): string
  {
    "'" + v + "'"
  }

  function QuoteAll(vals: seq<string>): seq<string>
  {
    seq(|vals|, i requires 0 <= i < |vals| => Quote(vals[i]))
  }

  /** A string `enum` as a union of single-quoted literals; no escaping. */
  function EnumUnion(vals: seq<string>): string
  {
    Join(QuoteAll(vals), " | ")
  }

  /** The `?` of an optional property: the key is not listed in `required`,
      and an absent `required` lists nothing. */
  function OptionalMark(key: string, required: Option<seq<string>>): string
  {
    if required.Some? && key in required.value then "" else "?"
  }

  /** One record line: two spaces, the key, `?` when optional, the type. */
  function PropertyLine(key: string, required: Option<seq<string>>, typeText: string): string
  {
    "  " + key + OptionalMark(key, required) + ": " + typeText + ";"
  }

  /** `schemaToTypeScript`. The `name` argument is accepted and unused. A
      truthy `$ref` yields a name taken from the pointer and is never
      expanded; `enum` is consulted only under `type: 'string'`. */
  function SchemaToTypeScript(schema: Schema, name: Option<string>): (r: string)
    ensures Truthy(schema.refPointer) ==> '/' !in r
    ensures r == [] <==>
      !Truthy(schema.refPointer) && schema.schemaType == Some("string") && schema.enumValues == Some([])
    decreases schema, 1
  {
    if Truthy(schema.refPointer) then
      var refName := Last(Split(schema.refPointer.value, '/'));
      if refName != [] then refName else "any"
    else if schema.schemaType == Some("string") then
      if schema.enumValues.Some? then EnumUnion(schema.enumValues.value) else "string"
    else if schema.schemaType == Some("number") || schema.schemaType == Some("integer") then
      "number"
    else if schema.schemaType == Some("boolean") then
      "boolean"
    else if schema.schemaType == Some("array") then
      if schema.items.Some? then "Array<" + SchemaToTypeScript(schema.items.value, None) + ">"
      else "any[]"
    else if schema.schemaType == Some("object") then
      if schema.properties.Properties? then "{\n" + Join(RecordLines(schema), "\n") + "\n}"
      else "Record<string, any>"
    else
      "any"
  }

  /** The record lines of an object node, one per property in declared
      order. */
  function RecordLines(schema: Schema): seq<string>
    requires schema.properties.Properties?
    decreases schema, 0
  {
    var entries := schema.properties.entries;
    seq(|entries|, i requires 0 <= i < |entries| =>
      PropertyLine(entries[i].key, schema.required, SchemaToTypeScript(entries[i].schema, None)))
  }

  // ---------------------------------------------------------------------
  // Properties of identifier synthesis
  // ---------------------------------------------------------------------

  /** The segment test of src/utils.ts:10 on its own: a segment takes part
      in a name exactly when it is non-empty and its first character is not
      `{`. */
  lemma NamedSegmentTest(seg: string)
    ensures IsNamedSegment(seg) <==> |seg| > 0 && seg[0] != '{'
  {
    if |seg| > 0 {
      assert StartsWith(seg, "{") <==> seg[..1] == "{";
      assert seg[..1] == [seg[0]];
    }
  }

  /** The named segments are exactly the segments that pass the filter. */
  lemma {:induction false} NamedSegmentsMembers(segs: seq<string>)
    ensures forall x :: x in NamedSegments(segs) <==> x in segs && IsNamedSegment(x)
    decreases |segs|
  {
    if segs != [] {
      NamedSegmentsMembers(segs[1..]);
      assert segs == [segs[0]] + segs[1..];
    }
  }

  /** A synthesised type name never contains `/`: each named segment is a
      piece of the split, and capitalising keeps it free of `/`. */
  lemma TypeNameHasNoSlash(apiPath: string)
    ensures '/' !in PathToTypeName(apiPath)
  {
    var pieces := Split(apiPath, '/');
    var named := NamedSegments(pieces);
    var caps := CapitalizeAll(named);
    NamedSegmentsMembers(pieces);
    forall i | 0 <= i < |caps|
      ensures '/' !in caps[i]
    {
      assert named[i] in named;
      assert named[i] in pieces;
      assert '/' !in named[i];
      assert forall k :: 0 <= k < |caps[i]| ==> caps[i][k] != '/';
    }
    JoinFree(caps, "", '/');
  }

  lemma {:induction false} NamedSegmentsAppend(a: seq<string>, b: seq<string>)
    ensures NamedSegments(a + b) == NamedSegments(a) + NamedSegments(b)
    decreases |a|
  {
    if a == [] {
      assert a + b == b;
    } else {
      assert (a + b)[0] == a[0];
      assert (a + b)[1..] == a[1..] + b;
      NamedSegmentsAppend(a[1..], b);
    }
  }

  /** The type name of a path written from `/`-free segments is the
      concatenation of its capitalised named segments. */
  lemma TypeNameOfSegments(segs: seq<string>)
    requires |segs| >= 1
    requires forall i :: 0 <= i < |segs| ==> '/' !in segs[i]
    ensures PathToTypeName(Join(segs, "/")) == Join(CapitalizeAll(NamedSegments(segs)), "")
  {
    SplitJoin(segs, '/');
  }

  /** Without `operationId`, the method name of a path written from
      `/`-free segments is the lower-cased verb followed by its capitalised
      named segments. */
  lemma MethodNameOfSegments(verb: string, segs: seq<string>)
    requires |segs| >= 1
    requires forall i :: 0 <= i < |segs| ==> '/' !in segs[i]
    ensures GenerateMethodName(verb, Join(segs, "/"), None)
            == ToLowerCase(verb) + Join(CapitalizeAll(NamedSegments(segs)), "")
  {
    TypeNameOfSegments(segs);
  }

  /** Path parameters never contribute to a name: inserting a `{...}`
      segment anywhere in a path leaves its type name unchanged. */
  lemma PathParameterIgnored(before: seq<string>, param: string, after: seq<string>)
    requires |before + after| >= 1
    requires forall k :: 0 <= k < |before + after| ==> '/' !in (before + after)[k]
    requires '/' !in param && StartsWith(param, "{")
    ensures PathToTypeName(Join(before + [param] + after, "/")) == PathToTypeName(Join(before + after, "/"))
  {
    var segs := before + after;
    var longer := before + [param] + after;
    InsertSlashFree(before, param, after);
    TypeNameOfSegments(longer);
    TypeNameOfSegments(segs);
    NamedSegmentsSkipParameter(before, param, after);
  }

  lemma InsertSlashFree(before: seq<string>, param: string, after: seq<string>)
    requires forall k :: 0 <= k < |before + after| ==> '/' !in (before + after)[k]
    requires '/' !in param
    ensures forall k :: 0 <= k < |before + [param] + after| ==> '/' !in (before + [param] + after)[k]
  {
    var segs := before + after;
    var longer := before + [param] + after;
    forall k | 0 <= k < |longer|
      ensures '/' !in longer[k]
    {
      if k < |before| {
        assert longer[k] == segs[k];
      } else if k > |before| {
        assert longer[k] == segs[k - 1];
      }
    }
  }

  lemma NamedSegmentsSkipParameter(before: seq<string>, param: string, after: seq<string>)
    requires StartsWith(param, "{")
    ensures NamedSegments(before + [param] + after) == NamedSegments(before + after)
  {
    NamedSegmentsAppend(before + [param], after);
    NamedSegmentsAppend(before, [param]);
    NamedSegmentsAppend(before, after);
    assert NamedSegments([param]) == [];
  }

  /** Without a truthy `operationId` the method name is the lower-cased verb
      followed by the path's type name; with one, it is the id verbatim. */
  lemma MethodNameCases(verb: string, path: string, operationId: Option<string>)
    ensures Truthy(operationId) ==> GenerateMethodName(verb, path, operationId) == operationId.value
    ensures !Truthy(operationId) ==>
      GenerateMethodName(verb, path, operationId) == ToLowerCase(verb) + PathToTypeName(path)
  {
  }

  /** The five HTTP verbs the generator handles, in either case. */
  predicate IsHttpVerb(verb: string)
  {
    ToLowerCase(verb) in ["get", "post", "put", "delete", "patch"]
  }

  /** Derived names can only collide within one verb: two verbs that differ
      after lower-casing never yield the same name, whatever the paths. */
  lemma DistinctVerbsDistinctNames(verb1: string, path1: string, verb2: string, path2: string)
    requires IsHttpVerb(verb1) && IsHttpVerb(verb2) && ToLowerCase(verb1) != ToLowerCase(verb2)
    ensures GenerateMethodName(verb1, path1, None) != GenerateMethodName(verb2, path2, None)
  {
    var n1 := GenerateMethodName(verb1, path1, None);
    var n2 := GenerateMethodName(verb2, path2, None);
    var l1 := ToLowerCase(verb1);
    var l2 := ToLowerCase(verb2);
    assert n1[..|l1|] == l1 && n2[..|l2|] == l2;
    VerbsDifferEarly(l1, l2);
  }

  /** The lower-cased verbs already differ in their first two characters. */
  lemma VerbsDifferEarly(l1: string, l2: string)
    requires l1 in ["get", "post", "put", "delete", "patch"]
    requires l2 in ["get", "post", "put", "delete", "patch"]
    requires l1 != l2
    ensures |l1| >= 2 && |l2| >= 2 && (l1[0] != l2[0] || l1[1] != l2[1])
  {
  }

  /** Type names compose: the type name of a path made of two `/`-joined
      parts is the type name of the first part followed by that of the
      second. */
  lemma TypeNameConcat(a: seq<string>, b: seq<string>)
    requires |a| >= 1 && |b| >= 1
    requires forall i :: 0 <= i < |a| ==> '/' !in a[i]
    requires forall i :: 0 <= i < |b| ==> '/' !in b[i]
    ensures PathToTypeName(Join(a + b, "/")) == PathToTypeName(Join(a, "/")) + PathToTypeName(Join(b, "/"))
  {
    ConcatSlashFree(a, b);
    TypeNameOfSegments(a + b);
    TypeNameOfSegments(a);
    TypeNameOfSegments(b);
    NamesOfAppend(a, b);
  }

  lemma ConcatSlashFree(a: seq<string>, b: seq<string>)
    requires forall i :: 0 <= i < |a| ==> '/' !in a[i]
    requires forall i :: 0 <= i < |b| ==> '/' !in b[i]
    ensures forall i :: 0 <= i < |a + b| ==> '/' !in (a + b)[i]
  {
    var ab := a + b;
    forall i | 0 <= i < |ab|
      ensures '/' !in ab[i]
    {
      if i >= |a| {
        assert ab[i] == b[i - |a|];
      }
    }
  }

  lemma NamesOfAppend(a: seq<string>, b: seq<string>)
    ensures Join(CapitalizeAll(NamedSegments(a + b)), "")
            == Join(CapitalizeAll(NamedSegments(a)), "") + Join(CapitalizeAll(NamedSegments(b)), "")
  {
    NamedSegmentsAppend(a, b);
    var na, nb := NamedSegments(a), NamedSegments(b);
    CapitalizeAllAppend(na, nb);
    JoinConcat(CapitalizeAll(na), CapitalizeAll(nb));
  }

  lemma CapitalizeAllAppend(x: seq<string>, y: seq<string>)
    ensures CapitalizeAll(x + y) == CapitalizeAll(x) + CapitalizeAll(y)
  {
    var l, cx, cy := CapitalizeAll(x + y), CapitalizeAll(x), CapitalizeAll(y);
    assert |l| == |x| + |y| && |cx| == |x| && |cy| == |y|;
    forall i | 0 <= i < |l|
      ensures l[i] == (cx + cy)[i]
    {
      if i < |x| {
        assert (x + y)[i] == x[i];
        assert l[i] == Capitalize(x[i]) == cx[i];
      } else {
        assert (x + y)[i] == y[i - |x|];
        assert l[i] == Capitalize(y[i - |x|]) == cy[i - |x|];
      }
    }
  }

  // ---------------------------------------------------------------------
  // Properties of schema translation
  // ---------------------------------------------------------------------

  /** A truthy `$ref` yields the text after the pointer's last `/` (the
      whole pointer when it has none), or `any` when that text is empty. */
  lemma RefYieldsLastSegment(schema: Schema, name: Option<string>)
    requires Truthy(schema.refPointer)
    ensures var p, r := schema.refPointer.value, SchemaToTypeScript(schema, name);
      (p[|p| - 1] == '/' ==> r == "any")
      && (p[|p| - 1] != '/' ==>
            0 < |r| <= |p| && '/' !in r && p[|p| - |r|..] == r
            && (|r| == |p| || p[|p| - |r| - 1] == '/'))
  {
    var p := schema.refPointer.value;
    LastPiece(p, '/');
    var last := Last(Split(p, '/'));
    if last != [] {
      assert p[|p| - 1] == last[|last| - 1];
    }
  }

  /** A reference is never expanded: its translation depends on the pointer
      alone, not on the node's other fields nor on `name`. */
  lemma RefIgnoresOtherFields(s1: Schema, s2: Schema, n1: Option<string>, n2: Option<string>)
    requires Truthy(s1.refPointer) && s1.refPointer == s2.refPointer
    ensures SchemaToTypeScript(s1, n1) == SchemaToTypeScript(s2, n2)
  {
  }

  /** The `name` argument has no effect. */
  lemma NameHasNoEffect(schema: Schema, n1: Option<string>, n2: Option<string>)
    ensures SchemaToTypeScript(schema, n1) == SchemaToTypeScript(schema, n2)
  {
  }

  /** `enum` matters only under `type: 'string'`. */
  lemma EnumIgnoredUnlessString(schema: Schema, vals: Option<seq<string>>, name: Option<string>)
    requires schema.schemaType != Some("string")
    ensures SchemaToTypeScript(schema.(enumValues := vals), name) == SchemaToTypeScript(schema, name)
  {
  }

  /** Primitive types: `number` and `integer` collapse to `number`, a plain
      string is `string`, `boolean` is `boolean`; an absent or unknown
      `type` degrades to `any`, whatever else the node holds short of a
      truthy `$ref`, which takes priority. */
  lemma PrimitiveTypes(schema: Schema, name: Option<string>)
    requires !Truthy(schema.refPointer)
    ensures schema.schemaType in {Some("number"), Some("integer")} ==> SchemaToTypeScript(schema, name) == "number"
    ensures schema.schemaType == Some("boolean") ==> SchemaToTypeScript(schema, name) == "boolean"
    ensures schema.schemaType == Some("string") && schema.enumValues.None? ==>
      SchemaToTypeScript(schema, name) == "string"
    ensures schema.schemaType !in {Some("string"), Some("number"), Some("integer"),
                                   Some("boolean"), Some("array"), Some("object")} ==>
      SchemaToTypeScript(schema, name) == "any"
  {
  }

  /** Arrays wrap the element type in `Array<...>`; without `items` they are
      `any[]`. */
  lemma ArrayWrapsItems(schema: Schema, name: Option<string>)
    requires !Truthy(schema.refPointer) && schema.schemaType == Some("array")
    ensures schema.items.Some? ==>
      SchemaToTypeScript(schema, name) == "Array<" + SchemaToTypeScript(schema.items.value, None) + ">"
    ensures schema.items.None? ==> SchemaToTypeScript(schema, name) == "any[]"
  {
  }

  /** Objects without `properties` are `Record<string, any>`, and an empty
      `properties` gives an empty record. With properties whose keys and
      types are single-line, splitting the record on newlines gives `{`,
      then one line per property in declared order (its key, `?` exactly
      when the key is not listed in `required`, its type), then `}`. */
  lemma ObjectRecordLines(schema: Schema, name: Option<string>)
    requires !Truthy(schema.refPointer) && schema.schemaType == Some("object")
    requires schema.properties.Properties? ==>
      forall i :: 0 <= i < |schema.properties.entries| ==>
        '\n' !in schema.properties.entries[i].key
        && '\n' !in SchemaToTypeScript(schema.properties.entries[i].schema, None)
    ensures schema.properties.NoProperties? ==> SchemaToTypeScript(schema, name) == "Record<string, any>"
    ensures schema.properties == Properties([]) ==> SchemaToTypeScript(schema, name) == "{\n\n}"
    ensures schema.properties.Properties? && schema.properties.entries != [] ==>
      var entries := schema.properties.entries;
      var lines := Split(SchemaToTypeScript(schema, name), '\n');
      |lines| == |entries| + 2 && lines[0] == "{" && lines[|lines| - 1] == "}"
      && forall i :: 0 <= i < |entries| ==>
        lines[i + 1] == "  " + entries[i].key
                        + (if schema.required.Some? && entries[i].key in schema.required.value then "" else "?")
                        + ": " + SchemaToTypeScript(entries[i].schema, None) + ";"
  {
    if schema.properties.Properties? && schema.properties.entries != [] {
      ObjectText(schema, name);
      RecordLinesSingleLine(schema);
      FramedSplit(RecordLines(schema));
      ObjectLineText(schema);
    }
  }

  lemma ObjectText(schema: Schema, name: Option<string>)
    requires !Truthy(schema.refPointer) && schema.schemaType == Some("object")
    requires schema.properties.Properties?
    ensures SchemaToTypeScript(schema, name) == "{\n" + Join(RecordLines(schema), "\n") + "\n}"
  {
  }

  /** Each record line spelled out. */
  lemma ObjectLineText(schema: Schema)
    requires schema.properties.Properties?
    ensures var entries := schema.properties.entries;
      forall i :: 0 <= i < |entries| ==>
        RecordLines(schema)[i] == "  " + entries[i].key
          + (if schema.required.Some? && entries[i].key in schema.required.value then "" else "?")
          + ": " + SchemaToTypeScript(entries[i].schema, None) + ";"
  {
  }

  /** Record lines are single-line when keys and property types are. */
  lemma RecordLinesSingleLine(schema: Schema)
    requires schema.properties.Properties?
    requires forall i :: 0 <= i < |schema.properties.entries| ==>
      '\n' !in schema.properties.entries[i].key
      && '\n' !in SchemaToTypeScript(schema.properties.entries[i].schema, None)
    ensures forall i :: 0 <= i < |RecordLines(schema)| ==> '\n' !in RecordLines(schema)[i]
  {
    var body := RecordLines(schema);
    forall i | 0 <= i < |body|
      ensures '\n' !in body[i]
    {
      var e := schema.properties.entries[i];
      PropertyLineSingleLine(e.key, schema.required, SchemaToTypeScript(e.schema, None));
    }
  }

  lemma PropertyLineSingleLine(key: string, required: Option<seq<string>>, typeText: string)
    requires '\n' !in key && '\n' !in typeText
    ensures '\n' !in PropertyLine(key, required, typeText)
  {
    var mark := OptionalMark(key, required);
    assert '\n' !in mark;
    var line := PropertyLine(key, required, typeText);
    assert line == "  " + key + mark + ": " + typeText + ";";
    forall k | 0 <= k < |line|
      ensures line[k] != '\n'
    {
      if k < 2 {
      } else if k < 2 + |key| {
        assert line[k] == key[k - 2];
      } else if k < 2 + |key| + |mark| {
        assert line[k] == mark[k - 2 - |key|];
      } else if k < 4 + |key| + |mark| {
      } else if k < 4 + |key| + |mark| + |typeText| {
        assert line[k] == typeText[k - 4 - |key| - |mark|];
      }
    }
  }

  /** Splitting `{`, the newline-joined body and `}` on newlines gives the
      framed body back. */
  lemma FramedSplit(body: seq<string>)
    requires |body| >= 1
    requires forall i :: 0 <= i < |body| ==> '\n' !in body[i]
    ensures Split("{\n" + Join(body, "\n") + "\n}", '\n') == ["{"] + body + ["}"]
  {
    var inner := Join(body, "\n");
    BraceFrame(inner);
    SplitFramed("{", body, "}", '\n');
  }

  lemma BraceFrame(inner: string)
    ensures "{\n" + inner + "\n}" == "{" + "\n" + inner + "\n" + "}"
  {
  }
}
