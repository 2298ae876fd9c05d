/**
 * The render settings of rendersettings.h: output resolution, output path
 * and the number of bits per colour channel, which must be 8 or 16.
 */
module Settings {
  import opened Wrappers
  import opened Tools

  /** What the constructors report on the error stream. */
  datatype SettingsDiagnostic =
    | BadChannelDepth(depth: int)   // the depth given was neither 8 nor 16
    | RootNotRenderSettings         // the settings file's root is not <rendersettings>
    | Malformed(error: XmlError)    // an element of the settings file does not parse

  /** The settings a settings file may name. */
  datatype SettingKind = Resolution | Depth | OutputPath

  /** The setting a child element names, by its tag. */
  function KindOf(tag: string): (r: Option<SettingKind>)
    ensures r.Some? <==> tag in {"resolution", "depth", "outputpath"}
  {
    if tag == "resolution" then Some(Resolution)
    else if tag == "depth" then Some(Depth)
    else if tag == "outputpath" then Some(OutputPath)
    else None
  }

  /** The channel depth the explicit constructor keeps: the one given if it is 8 or 16, else 8. */
  function CheckedDepth(depth: int): (r: int)
    ensures r == 8 || r == 16
    ensures r == depth <==> depth == 8 || depth == 16
    ensures !(depth == 8 || depth == 16) ==> r == 8
  {
    if depth == 8 || depth == 16 then depth else 8
  }

  /** The report of the explicit constructor. */
  function DepthLog(depth: int): (r: seq<SettingsDiagnostic>)
    ensures r == [] <==> depth == 8 || depth == 16
  {
    if depth == 8 || depth == 16 then [] else [BadChannelDepth(depth)]
  }

  /** The report for one child: its parse error, if any. */
  function Report(parsed: Parsed): (r: seq<SettingsDiagnostic>)
    ensures r == [] <==> parsed.Ok?
  {
    if parsed.Err? then [Malformed(parsed.error)] else []
  }

  /**
   * The log after the children of the settings root are read, starting from
   * `before`: one report per child that does not parse, in order.
   */
  function Reported(before: seq<SettingsDiagnostic>, children: seq<Parsed>): seq<SettingsDiagnostic>
    decreases |children|
  {
    if children == [] then before
    else Reported(before, children[..|children| - 1]) + Report(children[|children| - 1])
  }

  /** Reading the children only appends to the log, at most one report per child. */
  lemma {:induction false} ReportedGrows(before: seq<SettingsDiagnostic>, children: seq<Parsed>)
    ensures |before| <= |Reported(before, children)| <= |before| + |children|
    ensures Reported(before, children)[..|before|] == before
    decreases |children|
  {
    if children != [] {
      var prefix := children[..|children| - 1];
      ReportedGrows(before, prefix);
      assert Reported(before, children)[..|before|] == Reported(before, prefix)[..|before|];
    }
  }

  /** Reading the children leaves the log as it was exactly when every child parses. */
  lemma {:induction false} ReportedQuiet(before: seq<SettingsDiagnostic>, children: seq<Parsed>)
    ensures Reported(before, children) == before <==> forall i | 0 <= i < |children| :: children[i].Ok?
    decreases |children|
  {
    if children != [] {
      var prefix := children[..|children| - 1];
      ReportedQuiet(before, prefix);
      ReportedGrows(before, prefix);
      assert forall i | 0 <= i < |prefix| :: prefix[i] == children[i];
    }
  }

  /** One more child adds its own report, if any. */
  lemma ReportedNext(before: seq<SettingsDiagnostic>, children: seq<Parsed>, i: nat)
    requires i < |children|
    ensures Reported(before, children[..i + 1]) == Reported(before, children[..i]) + Report(children[i])
  {
    assert children[..i + 1][..i] == children[..i];
  }

  /** The log of the file constructor after a root element that parsed, starting from `before`. */
  function RootLog(before: seq<SettingsDiagnostic>, root: XmlNode): seq<SettingsDiagnostic>
  {
    Reported(before + (if root.tagName != "rendersettings" then [RootNotRenderSettings] else []),
             ParseAll(root.children))
  }

  /** What the file constructor reports for the settings file `content`. */
  function LoadLog(content: string): seq<SettingsDiagnostic>
  {
    match ParseBracket(StripFrom(content, 0))
    case Err(e) => [Malformed(e)]
    case Ok(root) => RootLog([], root)
  }

  /** A settings file whose root is <rendersettings> and whose children all parse loads silently. */
  lemma WellFormedLoadsQuietly(content: string, root: XmlNode)
    requires ParseBracket(StripFrom(content, 0)) == Ok(root) && root.tagName == "rendersettings"
    requires forall i | 0 <= i < |root.children| :: ParseBracket(root.children[i]).Ok?
    ensures LoadLog(content) == []
  {
    var children := ParseAll(root.children);
    assert forall i | 0 <= i < |children| :: children[i].Ok?;
    ReportedQuiet([], children);
  }

  /** A wrong root is reported first, and loading goes on with its children. */
  lemma WrongRootReported(content: string, root: XmlNode)
    requires ParseBracket(StripFrom(content, 0)) == Ok(root) && root.tagName != "rendersettings"
    ensures |LoadLog(content)| >= 1 && LoadLog(content)[0] == RootNotRenderSettings
    ensures LoadLog(content) == Reported([RootNotRenderSettings], ParseAll(root.children))
  {
    var first: seq<SettingsDiagnostic> := [RootNotRenderSettings];
    assert [] + first == first;
    var r := Reported(first, ParseAll(root.children));
    ReportedGrows(first, ParseAll(root.children));
    assert r[0] == r[..1][0] == first[0];
  }

  class RenderSettings {
    /** Width, then height. */
    var resolution: seq<int>
    var outputPath: string
    /** Bits per colour channel. */
    var channelDepth: int
    var log: seq<SettingsDiagnostic>

    /** The default settings: Full HD, "render.ppm", 8 bits. */
    constructor Default()
      ensures resolution == [1920, 1080] && outputPath == "render.ppm" && channelDepth == 8 && log == []
    {
      resolution := [1920, 1080];
      outputPath := "render.ppm";
      channelDepth := 8;
      log := [];
    }

    /** The explicit settings; a channel depth other than 8 or 16 becomes 8 and is reported. */
    constructor (resolution: seq<int>, outputPath: string, channelDepth: int)
      ensures this.resolution == resolution && this.outputPath == outputPath
      ensures this.channelDepth == CheckedDepth(channelDepth) && log == DepthLog(channelDepth)
    {
      this.resolution := resolution;
      this.outputPath := outputPath;
      var depth := channelDepth;
      var reported := [];
      if !(depth == 8 || depth == 16) {
        depth := 8;
        reported := [BadChannelDepth(channelDepth)];
      }
      this.channelDepth := depth;
      log := reported;
    }

    /**
     * The settings file constructor, given the file's content. It recognises
     * the settings but assigns none of them: the resolution and the path stay
     * empty and the depth keeps whatever `indeterminate` stands for, since the
     * field is never initialised.
     */
    constructor FromContent(content: string, indeterminate: int)
      ensures resolution == [] && outputPath == "" && channelDepth == indeterminate
      ensures log == LoadLog(content)
    {
      resolution := [];
      outputPath := "";
      channelDepth := indeterminate;
      log := [];
      new;
      var text := RemoveComments(content);
      var root := ParseXmlBracket(text);
      if root.Err? {
        log := [Malformed(root.error)];
      } else {
        LoadRoot(root.value);
      }
    }

    /** The part of the file constructor after the root element is parsed. */
    method LoadRoot(root: XmlNode)
      modifies this
      ensures resolution == old(resolution) && outputPath == old(outputPath) && channelDepth == old(channelDepth)
      ensures log == RootLog(old(log), root)
    {
      var first := if root.tagName != "rendersettings" then [RootNotRenderSettings] else [];
      log := log + first;
      var texts := root.children;
      ghost var children := ParseAll(texts);
      ghost var start := log;
      for i := 0 to |texts|
        invariant resolution == old(resolution) && outputPath == old(outputPath) && channelDepth == old(channelDepth)
        invariant log == Reported(start, children[..i])
      {
        ReportedNext(start, children, i);
        ReadSetting(texts[i]);
      }
      assert children[..|texts|] == children;
    }

    /** One turn of the loop over the settings: a setting is recognised by its tag and left unused. */
    method ReadSetting(text: string)
      modifies this
      ensures resolution == old(resolution) && outputPath == old(outputPath) && channelDepth == old(channelDepth)
      ensures log == old(log) + Report(ParseBracket(text))
    {
      var setting := ParseXmlBracket(text);
      if setting.Err? {
        log := log + [Malformed(setting.error)];
      } else {
        match KindOf(setting.value.tagName)
        case Some(Resolution) =>
        case Some(Depth) =>
        case Some(OutputPath) =>
        case None =>
      }
    }
  }
}
