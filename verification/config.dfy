/** The OpenSSL `.cnf` text renderer of src/config.ts: lines, blocks, and the fixed
    four-block request configuration with `@block` cross-references. */
module Config {
  import opened Wrappers
  import opened Text

  /** A configuration value: the source accepts `string | number`. */
  datatype Value = Str(s: string) | Num(n: int)

  /** JavaScript falsiness of a value: the empty string and the number zero. */
  predicate Falsy(v: Value) {
    match v
    case Str(s) => s == ""
    case Num(n) => n == 0
  }

  /** Text a value takes inside a template literal. */
  function ValueText(v: Value): (r: string)
    ensures v.Str? ==> r == v.s
    ensures v.Num? ==> |r| > 0
  {
    match v
    case Str(s) => s
    case Num(n) => IntToString(n)
  }

  /** One key/value entry of a block. */
  type Entry = (string, Value)

  /** An object literal: entries in insertion order. A JavaScript object holds each
      key once; `DistinctKeys` states that shape where a property needs it. */
  type AList = seq<Entry>

  function Keys(m: AList): seq<string> {
    seq(|m|, i requires 0 <= i < |m| => m[i].0)
  }

  lemma KeysCons(m: AList)
    requires |m| > 0
    ensures Keys(m) == [m[0].0] + Keys(m[1..])
  {
  }

  predicate DistinctKeys(m: AList) {
    forall i, j :: 0 <= i < j < |m| ==> m[i].0 != m[j].0
  }

  /** `m[k]`: the value stored under `k`, if any. */
  function Lookup(m: AList, k: string): (r: Option<Value>)
    ensures r.None? <==> k !in Keys(m)
  {
    if |m| == 0 then None
    else
      KeysCons(m);
      if m[0].0 == k then Some(m[0].1) else Lookup(m[1..], k)
  }

  /** Assigning `k: v` into an object: an existing key keeps its position and takes
      the new value; a new key goes at the end. */
  function Put(m: AList, k: string, v: Value): (r: AList)
    ensures Lookup(r, k) == Some(v)
    ensures Keys(r) == if k in Keys(m) then Keys(m) else Keys(m) + [k]
  {
    if |m| == 0 then [(k, v)]
    else if m[0].0 == k then
      assert Keys([(k, v)] + m[1..]) == Keys(m);
      [(k, v)] + m[1..]
    else
      var rest := Put(m[1..], k, v);
      KeysCons(m);
      KeysCons([m[0]] + rest);
      assert ([m[0]] + rest)[1..] == rest;
      [m[0]] + rest
  }

  /** Assigning a key that is not yet present appends it. */
  lemma {:induction false} PutNew(m: AList, k: string, v: Value)
    requires k !in Keys(m)
    ensures Put(m, k, v) == m + [(k, v)]
  {
    if |m| > 0 {
      KeysCons(m);
      assert m[0].0 != k;
      PutNew(m[1..], k, v);
      assert Put(m, k, v) == [m[0]] + Put(m[1..], k, v);
      assert [m[0]] + (m[1..] + [(k, v)]) == m + [(k, v)];
    }
  }

  /** Assigning `k` leaves every other key's value alone. */
  lemma {:induction false} PutOther(m: AList, k: string, v: Value, k': string)
    requires k' != k
    ensures Lookup(Put(m, k, v), k') == Lookup(m, k')
  {
    if |m| > 0 && m[0].0 != k {
      PutOther(m[1..], k, v, k');
    }
  }

  /** An object keeps each key once. */
  lemma PutDistinct(m: AList, k: string, v: Value)
    requires DistinctKeys(m)
    ensures DistinctKeys(Put(m, k, v))
  {
    var r := Put(m, k, v);
    var km, kr := Keys(m), Keys(r);
    forall i, j | 0 <= i < j < |r|
      ensures r[i].0 != r[j].0
    {
      assert kr[i] == r[i].0 && kr[j] == r[j].0;
      if k in km {
        assert km[i] == m[i].0 && km[j] == m[j].0;
      } else if j == |m| {
        assert r[j].0 == k;
        assert km[i] == m[i].0;
      } else {
        assert km[i] == m[i].0 && km[j] == m[j].0;
      }
    }
  }

  /** `{ ...m, ...extra }`: every entry of `extra`, in order, assigned into `m`. */
  function Spread(m: AList, extra: AList): AList
    decreases |extra|
  {
    if |extra| == 0 then m else Spread(Put(m, extra[0].0, extra[0].1), extra[1..])
  }

  /** The width the source aims the key column at. */
  const KeyColumn := 23

  /** Position of ` = ` in a rendered line: the source pads the key to `23 - |key|`
      characters, which leaves keys of 12 or more characters unpadded. */
  function SeparatorAt(key: string): nat {
    if KeyColumn - |key| <= |key| then |key| else KeyColumn - |key|
  }

  /** `generateLine`: `<key><padding> = <value>\n`, or nothing for a falsy value. */
  function GenerateLine(key: string, value: Value): (r: string)
    ensures r == "" <==> Falsy(value)
    ensures !Falsy(value) ==>
      var at := SeparatorAt(key);
      && |r| == at + 3 + |ValueText(value)| + 1
      && r[..|key|] == key
      && (forall i :: |key| <= i < at ==> r[i] == ' ')
      && r[at..] == " = " + ValueText(value) + "\n"
  {
    if Falsy(value) then ""
    else PadEnd(key, KeyColumn - |key|) + " = " + ValueText(value) + "\n"
  }

  /** Lines of a mapping, one per entry (falsy entries give empty lines), in key order. */
  function Lines(m: AList): (r: seq<string>)
    ensures |r| == |m|
    ensures forall i :: 0 <= i < |m| ==> r[i] == GenerateLine(m[i].0, m[i].1)
  {
    if |m| == 0 then [] else [GenerateLine(m[0].0, m[0].1)] + Lines(m[1..])
  }

  /** The body of a block: an array of lines interpolated into a template literal,
      which joins the lines with commas. */
  function BlockBody(m: AList): string {
    Join(Lines(m), ",")
  }

  function Header(title: string): string {
    "[ " + title + " ]\n"
  }

  /** `generateBlock`: nothing for absent data; otherwise the header, the body and a
      newline, even when the mapping has no entries. */
  function GenerateBlock(title: string, data: Option<AList>): (r: string)
    ensures r == "" <==> data.None?
    ensures data.Some? ==>
      && |r| > |Header(title)|
      && StartsWith(r, Header(title))
      && r[|r| - 1] == '\n'
      && r[|Header(title)|..|r| - 1] == BlockBody(data.value)
  {
    match data
    case None => ""
    case Some(m) =>
      var r := Header(title) + BlockBody(m) + "\n";
      assert r[|Header(title)|..|r| - 1] == BlockBody(m);
      r
  }

  /** The three optional mappings the renderer takes. */
  datatype ConfigParams = ConfigParams(
    distinguishedName: Option<AList>,
    reqExtensions: Option<AList>,
    altNames: Option<AList>)

  /** `generateBlockReference`: a one-entry mapping `key = @blockName` when the
      referenced data is present, otherwise an empty mapping. */
  function BlockReference(key: string, blockName: string, data: Option<AList>): (r: AList)
    ensures |r| <= 1
    ensures |r| == 1 <==> data.Some?
    ensures data.Some? ==> r[0] == (key, Str("@" + blockName))
  {
    if data.Some? then [(key, Str("@" + blockName))] else []
  }

  /** The fixed options of the `req` block, in source order. */
  const ReqDefaults: AList := [
    ("prompt", Str("no")),
    ("default_bits", Num(4096)),
    ("default_md", Str("sha512")),
    ("default_keyfile", Str("{acme.domain}-key.pem")),
    ("string_mask", Str("utf8only")),
    ("utf8", Str("yes"))
  ]

  /** Entries of the `req` block: the defaults, then the references. */
  function ReqEntries(p: ConfigParams): AList {
    Spread(
      Spread(ReqDefaults, BlockReference("distinguished_name", "req_distinguished_name", p.distinguishedName)),
      BlockReference("req_extensions", "v3_req", p.reqExtensions))
  }

  /** The `req` block holds the six defaults in source order, then
      `distinguished_name = @req_distinguished_name` exactly when a distinguished name
      is supplied, then `req_extensions = @v3_req` exactly when request extensions are
      supplied: the references are appended, never merged into a default. */
  lemma ReqBlockEntries(p: ConfigParams)
    ensures ReqEntries(p) == ReqDefaults
      + BlockReference("distinguished_name", "req_distinguished_name", p.distinguishedName)
      + BlockReference("req_extensions", "v3_req", p.reqExtensions)
    ensures |ReqEntries(p)| == 6 + (if p.distinguishedName.Some? then 1 else 0) + (if p.reqExtensions.Some? then 1 else 0)
  {
    var dnRef := BlockReference("distinguished_name", "req_distinguished_name", p.distinguishedName);
    var extRef := BlockReference("req_extensions", "v3_req", p.reqExtensions);
    ReqDefaultKeys();
    SpreadFresh(ReqDefaults, dnRef);
    KeysAppend(ReqDefaults, dnRef);
    SpreadFresh(ReqDefaults + dnRef, extRef);
    KeysAppend(ReqDefaults + dnRef, extRef);
  }

  lemma ReqDefaultKeys()
    ensures Keys(ReqDefaults) == ["prompt", "default_bits", "default_md", "default_keyfile", "string_mask", "utf8"]
  {
  }

  lemma KeysAppend(m: AList, extra: AList)
    ensures Keys(m + extra) == Keys(m) + Keys(extra)
  {
    var r := m + extra;
    assert forall i :: 0 <= i < |r| ==> Keys(r)[i] == (Keys(m) + Keys(extra))[i];
  }

  lemma SpreadSingle(m: AList, extra: AList)
    requires |extra| <= 1
    ensures Spread(m, extra) == if |extra| == 0 then m else Put(m, extra[0].0, extra[0].1)
  {
  }

  /** Spreading at most one entry whose key is new appends it. */
  lemma SpreadFresh(m: AList, extra: AList)
    requires |extra| <= 1
    requires |extra| == 1 ==> extra[0].0 !in Keys(m)
    ensures Spread(m, extra) == m + extra
  {
    if |extra| == 1 {
      PutNew(m, extra[0].0, extra[0].1);
      assert extra == [(extra[0].0, extra[0].1)];
    }
  }

  /** Entries of the `v3_req` block: the request extensions, with a `subjectAltName`
      reference merged in when alternate names are supplied. The reference names the
      `v3_req` block itself, as the source writes it. */
  function V3Entries(p: ConfigParams): AList {
    Spread(Spread([], p.reqExtensions.GetOr([])), BlockReference("subjectAltName", "v3_req", p.altNames))
  }

  /** The document's blocks, titled and in output order. */
  function ConfigBlocks(p: ConfigParams): (r: seq<(string, Option<AList>)>)
    ensures |r| == 4
    ensures r[0] == ("req", Some(ReqEntries(p)))
    ensures r[1] == ("req_distinguished_name", p.distinguishedName)
    ensures r[2] == ("v3_req", Some(V3Entries(p)))
    ensures r[3] == ("alt_names", p.altNames)
  {
    [ ("req", Some(ReqEntries(p))),
      ("req_distinguished_name", p.distinguishedName),
      ("v3_req", Some(V3Entries(p))),
      ("alt_names", p.altNames) ]
  }

  /** The template literal around the blocks: each block follows a newline and four
      spaces of indentation, and the document closes with a newline and two spaces. */
  function Render(blocks: seq<(string, Option<AList>)>): string
    decreases |blocks|
  {
    if |blocks| == 0 then "\n  "
    else "\n    " + GenerateBlock(blocks[0].0, blocks[0].1) + Render(blocks[1..])
  }

  /** `generateConfig`. */
  function GenerateConfig(p: ConfigParams): (r: string)
    ensures StartsWith(r, "\n    " + Header("req"))
    ensures r[|r| - 3..] == "\n  "
  {
    var blocks := ConfigBlocks(p);
    RenderStarts(blocks);
    RenderEnds(blocks);
    Render(blocks)
  }

  lemma RenderStarts(blocks: seq<(string, Option<AList>)>)
    requires |blocks| > 0 && blocks[0].1.Some?
    ensures StartsWith(Render(blocks), "\n    " + Header(blocks[0].0))
  {
    var b := GenerateBlock(blocks[0].0, blocks[0].1);
    var h := Header(blocks[0].0);
    assert b[..|h|] == h;
    var r := Render(blocks);
    assert r == "\n    " + b + Render(blocks[1..]);
    assert r[..|"\n    " + h|] == "\n    " + b[..|h|];
  }

  lemma {:induction false} RenderEnds(blocks: seq<(string, Option<AList>)>)
    ensures |Render(blocks)| >= 3 && Render(blocks)[|Render(blocks)| - 3..] == "\n  "
    decreases |blocks|
  {
    if |blocks| > 0 {
      RenderEnds(blocks[1..]);
    }
  }

  /** Spreading the rest of an object with distinct keys onto its prefix rebuilds
      the object: every spread key is new, so each is appended in order. */
  lemma {:induction false} SpreadDisjoint(all: AList, n: nat)
    requires n <= |all| && DistinctKeys(all)
    ensures Spread(all[..n], all[n..]) == all
    decreases |all| - n
  {
    if n == |all| {
      assert all[..n] == all;
    } else {
      FreshAt(all, n);
      SpreadStep(all[..n], all[n..]);
      assert all[..n] + [all[n..][0]] == all[..n + 1];
      assert all[n..][1..] == all[n + 1..];
      SpreadDisjoint(all, n + 1);
    }
  }

  lemma SpreadStep(m: AList, extra: AList)
    requires |extra| > 0 && extra[0].0 !in Keys(m)
    ensures Spread(m, extra) == Spread(m + [extra[0]], extra[1..])
  {
    PutNew(m, extra[0].0, extra[0].1);
  }

  lemma FreshAt(all: AList, n: nat)
    requires n < |all| && DistinctKeys(all)
    ensures all[n].0 !in Keys(all[..n])
  {
    var km := Keys(all[..n]);
    forall i | 0 <= i < |km|
      ensures km[i] != all[n].0
    {
      assert km[i] == all[i].0;
    }
  }

  /** The `v3_req` block. Without alternate names it is exactly the request
      extensions (an empty mapping when none are supplied, but still present). With
      alternate names, `subjectAltName = @v3_req` is appended, or, when the extensions
      already hold a `subjectAltName`, that entry takes the new value in place while
      every other entry keeps its position and value. */
  lemma V3BlockEntries(p: ConfigParams)
    requires p.reqExtensions.Some? ==> DistinctKeys(p.reqExtensions.value)
    ensures var ext := p.reqExtensions.GetOr([]);
      var r := V3Entries(p);
      && (p.altNames.None? ==> r == ext)
      && (p.altNames.Some? && "subjectAltName" !in Keys(ext) ==>
            r == ext + [("subjectAltName", Str("@v3_req"))])
      && (p.altNames.Some? && "subjectAltName" in Keys(ext) ==>
            && Keys(r) == Keys(ext)
            && Lookup(r, "subjectAltName") == Some(Str("@v3_req"))
            && forall k :: k != "subjectAltName" ==> Lookup(r, k) == Lookup(ext, k))
  {
    var ext := p.reqExtensions.GetOr([]);
    SpreadDisjoint(ext, 0);
    assert ext[..0] == [] && ext[0..] == ext;
    var altRef := BlockReference("subjectAltName", "v3_req", p.altNames);
    assert "@" + "v3_req" == "@v3_req";
    SpreadSingle(ext, altRef);
    if p.altNames.Some? {
      assert altRef == [("subjectAltName", Str("@v3_req"))];
      assert V3Entries(p) == Put(ext, "subjectAltName", Str("@v3_req"));
      if "subjectAltName" !in Keys(ext) {
        PutNew(ext, "subjectAltName", Str("@v3_req"));
      } else {
        forall k | k != "subjectAltName"
          ensures Lookup(V3Entries(p), k) == Lookup(ext, k)
        {
          PutOther(ext, "subjectAltName", Str("@v3_req"), k);
        }
      }
    }
  }

  /** A non-empty block body is its lines joined by commas: appending an entry adds a
      comma and the entry's line, so a falsy entry still leaves a lone comma. */
  lemma BlockBodyAppend(m: AList, k: string, v: Value)
    requires |m| > 0
    ensures BlockBody(m + [(k, v)]) == BlockBody(m) + "," + GenerateLine(k, v)
    ensures Falsy(v) ==> BlockBody(m + [(k, v)]) == BlockBody(m) + ","
  {
    var ls := Lines(m + [(k, v)]);
    assert ls == Lines(m) + [GenerateLine(k, v)];
    JoinAppend(Lines(m), [GenerateLine(k, v)], ",");
  }

  /** A rendered line holds a comma only if its key or its value text does. */
  lemma LineWithoutComma(key: string, value: Value)
    requires ',' !in key && ',' !in ValueText(value)
    ensures ',' !in GenerateLine(key, value)
  {
    if !Falsy(value) {
      var r := GenerateLine(key, value);
      var at := SeparatorAt(key);
      forall i | 0 <= i < |r|
        ensures r[i] != ','
      {
        if i < |key| {
          assert r[i] == r[..|key|][i];
        } else if i >= at {
          assert r[i] == r[at..][i - at];
          assert r[at..] == " = " + ValueText(value) + "\n";
        }
      }
    }
  }

  /** When no key or value text contains a comma, the body of a non-empty block
      splits at its commas back into exactly one line per entry, in key order, and
      therefore holds exactly `|m| - 1` commas. */
  lemma BlockBodyLines(m: AList)
    requires |m| > 0
    requires forall i :: 0 <= i < |m| ==> ',' !in m[i].0 && ',' !in ValueText(m[i].1)
    ensures Split(BlockBody(m), ',') == Lines(m)
    ensures Count(BlockBody(m), ',') == |m| - 1
  {
    var ls := Lines(m);
    forall i | 0 <= i < |ls|
      ensures ',' !in ls[i]
    {
      LineWithoutComma(m[i].0, m[i].1);
    }
    SplitJoin(ls, ',');
    CountJoin(ls, ',');
  }

  /** The document is the four blocks in fixed order (`req`, `req_distinguished_name`,
      `v3_req`, `alt_names`), each after a newline and four spaces, closed by a newline
      and two spaces; the `req` and `v3_req` blocks are always present, the other two
      exactly when their data is supplied (see `GenerateBlock`). */
  lemma ConfigDocument(p: ConfigParams)
    ensures GenerateConfig(p) ==
      "\n    " + GenerateBlock("req", Some(ReqEntries(p))) + (
      "\n    " + GenerateBlock("req_distinguished_name", p.distinguishedName) + (
      "\n    " + GenerateBlock("v3_req", Some(V3Entries(p))) + (
      "\n    " + GenerateBlock("alt_names", p.altNames) + (
      "\n  "))))
    ensures GenerateBlock("req_distinguished_name", p.distinguishedName) == "" <==> p.distinguishedName.None?
    ensures GenerateBlock("alt_names", p.altNames) == "" <==> p.altNames.None?
    ensures GenerateBlock("v3_req", Some(V3Entries(p))) != ""
  {
    var bs := ConfigBlocks(p);
    var b0 := GenerateBlock("req", Some(ReqEntries(p)));
    var b1 := GenerateBlock("req_distinguished_name", p.distinguishedName);
    var b2 := GenerateBlock("v3_req", Some(V3Entries(p)));
    var b3 := GenerateBlock("alt_names", p.altNames);
    assert Render(bs[4..]) == "\n  ";
    assert Render(bs[3..]) == "\n    " + b3 + "\n  ";
    assert Render(bs[2..]) == "\n    " + b2 + Render(bs[3..]);
    assert Render(bs[1..]) == "\n    " + b1 + Render(bs[2..]);
    assert Render(bs) == "\n    " + b0 + Render(bs[1..]);
  }

  /** Keys of twelve or more characters get no padding at all, since the pad target
      `23 - |key|` is then no longer than the key: the separator directly follows. */
  lemma LongKeyUnpadded(key: string, value: Value)
    requires |key| >= 12 && !Falsy(value)
    ensures GenerateLine(key, value) == key + " = " + ValueText(value) + "\n"
  {
  }

  /** The `req` block's digest line as rendered: `default_md` (10 characters) is padded
      to 13, not to column 23. */
  lemma DefaultMdLine()
    ensures GenerateLine("default_md", Str("sha512")) == "default_md    = sha512\n"
  {
  }
}
