// Tags as they are spelled (src/ast.rs): what a raw spelling is read as, printing,
// equality, and which keys are merge keys.
module Tags {
  import opened Prelude
  import V = Values
  import N = Nodes
  import A = ApplyMerge

  type Tag = V.Tag

  /** The place of the first bang. */
  function FirstBang(s: string): (r: Option<nat>)
    ensures r.Some? ==> r.value < |s| && s[r.value] == '!' && '!' !in s[..r.value]
    ensures r.None? ==> '!' !in s
  {
    if s == "" then None
    else if s[0] == '!' then Some(0)
    else match FirstBang(s[1..])
      case None => None
      case Some(i) => assert s[..i + 1] == [s[0]] + s[1..][..i]; Some(i + 1)
  }

  /** `Tag::new`, which refuses the empty spelling. */
  function Read(raw: string): Tag
    requires raw != ""
  {
    if "!!" <= raw then V.Tag("!!", raw[2..])
    else if raw[0] != '!' then V.Tag("!", raw)
    else
      var rest := raw[1..];
      if |rest| >= 2 && rest[0] == '<' && rest[|rest| - 1] == '>' then V.Tag("!", rest[1..|rest| - 1])
      else match FirstBang(rest)
        case Some(i) => V.Tag("!" + rest[..i] + "!", rest[i + 1..])
        case None => V.Tag("!", rest)
  }

  // ----- Printing ----------------------------------------------------------------------------

  lemma TwoBangs(raw: string)
    requires |raw| >= 2
    ensures "!!" <= raw <==> raw[0] == '!' && raw[1] == '!'
  {
    if raw[0] == '!' && raw[1] == '!' { assert raw[..2] == "!!"; }
  }

  // What the spelling of a tag was: a secondary, a plain, primary or verbatim one, or
  // one with a named handle.
  lemma ReadFrom(raw: string)
    requires raw != ""
    ensures var t := Read(raw);
            || (t.handle == "!!" && raw == "!!" + t.suffix)
            || (t.handle == "!" && (raw == t.suffix || raw == "!" + t.suffix || raw == "!<" + t.suffix + ">"))
            || (t.handle != "!" && t.handle != "!!" && raw == t.handle + t.suffix && raw[0] == '!' && |raw| > 2)
  {
    if !("!!" <= raw) && raw[0] == '!' {
      var rest := raw[1..];
      assert raw == "!" + rest;
      if |rest| >= 2 && rest[0] == '<' && rest[|rest| - 1] == '>' {
        assert raw == "!<" + rest[1..|rest| - 1] + ">";
      } else if FirstBang(rest).Some? {
        var i := FirstBang(rest).value;
        assert raw == "!" + rest[..i] + "!" + rest[i + 1..];
        TwoBangs(raw);
        assert raw[1] == rest[0];
      }
    }
  }

  // The text of a tag that is read from some spelling.
  lemma ReadText(raw: string)
    requires raw != ""
    ensures var t := Read(raw);
            || (t.handle == "!!" && V.TagText(t) == "!!" + t.suffix)
            || (t.handle == "!" && V.NeedsVerbatim(t.suffix) && V.TagText(t) == "!<" + t.suffix + ">")
            || (t.handle == "!" && !V.NeedsVerbatim(t.suffix) && V.TagText(t) == "!" + t.suffix)
            || (V.TagText(t) == raw && raw[0] == '!')
  {
    hide V.NeedsVerbatim, Read;
    ReadFrom(raw);
  }

  lemma ReadSecondary(suffix: string)
    ensures Read("!!" + suffix) == V.Tag("!!", suffix)
  {
    assert ("!!" + suffix)[2..] == suffix;
  }

  lemma ReadVerbatim(suffix: string)
    ensures Read("!<" + suffix + ">") == V.Tag("!", suffix)
  {
    var raw, rest := "!<" + suffix + ">", "<" + suffix + ">";
    TwoBangs(raw);
    assert raw[1..] == rest;
    assert rest[|rest| - 1] == '>' && rest[1..|rest| - 1] == suffix;
  }

  lemma ReadPrimary(suffix: string)
    requires '!' !in suffix && (suffix == "" || suffix[0] != '<')
    ensures Read("!" + suffix) == V.Tag("!", suffix)
  {
    var raw := "!" + suffix;
    assert raw[1..] == suffix;
    if suffix != "" {
      TwoBangs(raw);
      assert suffix[0] in suffix;
    }
  }

  lemma OrdinarySuffix(suffix: string)
    requires !V.NeedsVerbatim(suffix)
    ensures '!' !in suffix && (suffix == "" || suffix[0] != '<')
  {
  }

  /** Every tag that was read is read back from its printed form. */
  lemma PrintedTagIsReadBack(raw: string)
    requires raw != ""
    ensures V.TagText(Read(raw)) != "" && V.TagText(Read(raw))[0] == '!' && Read(V.TagText(Read(raw))) == Read(raw)
  {
    hide V.TagText, V.NeedsVerbatim, Read;
    var t := Read(raw);
    ReadText(raw);
    ReadSecondary(t.suffix);
    ReadVerbatim(t.suffix);
    if t.handle == "!" && !V.NeedsVerbatim(t.suffix) {
      OrdinarySuffix(t.suffix);
      ReadPrimary(t.suffix);
    }
  }

  // ----- Equality ------------------------------------------------------------------------------

  // The non-specific tag and the empty secondary one.
  const BARE: set<Tag> := {V.Tag("!", ""), V.Tag("!!", "")}

  lemma BareTexts(raw: string)
    requires raw != ""
    ensures V.TagText(Read(raw)) == "!" <==> Read(raw) == V.Tag("!", "")
    ensures V.TagText(Read(raw)) == "!!" <==> Read(raw) == V.Tag("!!", "")
  {
    PrintedTagIsReadBack(raw);
    ReadSecondary("");
    ReadPrimary("");
    assert "!!" + "" == "!!" && "!" + "" == "!";
  }

  /** Tags that were read are equal exactly if they are the same, but for `!` and
      `!!`, which are equal as well. */
  lemma ReadTagsEqualExactly(a: string, b: string)
    requires a != "" && b != ""
    ensures V.TagEq(Read(a), Read(b)) <==> Read(a) == Read(b) || (Read(a) in BARE && Read(b) in BARE)
  {
    hide V.TagText, Read;
    PrintedTagIsReadBack(a);
    PrintedTagIsReadBack(b);
    BareTexts(a);
    BareTexts(b);
    var x, y := V.TagText(Read(a)), V.TagText(Read(b));
    assert x == [x[0]] + x[1..] && y == [y[0]] + y[1..];
    assert "!!"[1..] == "!";
  }

  // ----- Tags of the core schema ---------------------------------------------------------------

  const CORE := "tag:yaml.org,2002:"

  /** The four spellings of a tag of the core schema. */
  function CoreSpellings(core: string): set<string> {
    {"!!" + core, CORE + core, "!" + (CORE + core), "!<" + (CORE + core) + ">"}
  }

  lemma CoreIsRead(core: string)
    requires '!' !in core
    ensures Read("!!" + core) == V.Tag("!!", core)
    ensures Read(CORE + core) == Read("!" + (CORE + core)) == Read("!<" + (CORE + core) + ">") == V.Tag("!", CORE + core)
  {
    hide Read, FirstBang;
    ReadSecondary(core);
    ReadVerbatim(CORE + core);
    assert CORE[0] == 't' && '!' !in CORE;
    ReadPrimary(CORE + core);
    ReadPlain(CORE + core);
  }

  lemma ReadPlain(raw: string)
    requires raw != "" && raw[0] != '!'
    ensures Read(raw) == V.Tag("!", raw)
  {
  }

  /** A tag that was read stands for a tag of the core schema exactly if it was
      spelled in one of four ways. */
  lemma CoreTagsSpelled(raw: string, core: string)
    requires raw != "" && '!' !in core
    ensures Read(raw).IsYamlCore(core) <==> raw in CoreSpellings(core)
  {
    hide Read;
    ReadFrom(raw);
    CoreIsRead(core);
  }

  // ----- Merge keys ----------------------------------------------------------------------------

  /** The tags of a node, from the outside in. */
  function NodeTags(n: N.Node): seq<Tag>
    decreases n
  {
    match n.value
    case Tagged(tag, _, inner) => [tag] + NodeTags(inner)
    case _ => []
  }

  /** What is behind the tags. */
  function Bare(n: N.Node): N.NodeValue
    decreases n
  {
    match n.value
    case Tagged(_, _, inner) => Bare(inner)
    case v => v
  }

  lemma {:induction false} BareString(n: N.Node, s: string)
    ensures N.AsStr(n) == Some(s) <==> Bare(n) == N.String(s)
    decreases n
  {
    if n.value.Tagged? { BareString(n.value.node, s); }
  }

  /** A key merges exactly if it is the string `<<`, untagged, or with a tag that was
      spelled as the merge tag outermost, whatever tags follow. */
  lemma MergeKeysSpelled(key: N.Node, raw: string)
    requires raw != "" && (NodeTags(key) != [] ==> NodeTags(key)[0] == Read(raw))
    ensures N.IsMergeKey(key) <==> Bare(key) == N.String("<<") && (NodeTags(key) == [] || raw in CoreSpellings("merge"))
  {
    hide Read, CoreSpellings;
    CoreTagsSpelled(raw, "merge");
    if key.value.Tagged? { BareString(key.value.node, "<<"); }
  }

  function ValueTags(v: V.Value): seq<Tag> {
    match v
    case Tagged(tag, inner) => [tag] + ValueTags(inner)
    case _ => []
  }

  function BareValue(v: V.Value): V.Value {
    match v
    case Tagged(_, inner) => BareValue(inner)
    case _ => v
  }

  lemma {:induction false} BareStringValue(v: V.Value, s: string)
    ensures A.AsStr(v) == Some(s) <==> BareValue(v) == V.String(s)
  {
    if v.Tagged? { BareStringValue(v.value, s); }
  }

  /** The same of the keys of values. */
  lemma MergeValuesSpelled(key: V.Value, raw: string)
    requires raw != "" && (ValueTags(key) != [] ==> ValueTags(key)[0] == Read(raw))
    ensures A.IsMergeKey(key) <==> BareValue(key) == V.String("<<") && (ValueTags(key) == [] || raw in CoreSpellings("merge"))
  {
    hide Read, CoreSpellings;
    CoreTagsSpelled(raw, "merge");
    if key.Tagged? { BareStringValue(key.value, "<<"); }
  }
}
