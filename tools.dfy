/**
 * The tag-structured text front end of `tools.h`: `removeComments`, the
 * `XML_Node` record and `parse_xml_bracket`.
 */
module Tools {
  import opened Wrappers
  import opened Text

  // ---------------------------------------------------------------------------
  // removeComments
  // ---------------------------------------------------------------------------

  /**
   * What `removeComments` appends to its result from position `pos` on:
   * the text before the next "<!--" is kept, the span up to and including the
   * first "-->" found from the opening position itself is dropped, and an
   * unterminated "<!--" is kept together with everything after it.
   */
  function StripFrom(s: string, pos: nat): string
    requires pos <= |s|
    decreases |s| - pos
  {
    if pos == |s| then []
    else
      match Find(s, "<!--", pos)
      case None => s[pos..]
      case Some(start) =>
        match Find(s, "-->", start)
        case None => s[pos..start] + s[start..]
        case Some(end) => s[pos..start] + StripFrom(s, end + 3)
  }

  /** `done` is what `removeComments` has produced when it is about to look at `pos`. */
  ghost predicate Produced(s: string, pos: nat, done: string)
    requires pos <= |s|
  {
    done + StripFrom(s, pos) == StripFrom(s, 0)
  }

  /** A step of `StripFrom` that finds no further "<!--": the rest is copied. */
  lemma StripNone(s: string, pos: nat, done: string)
    requires pos < |s| && Find(s, "<!--", pos).None? && Produced(s, pos, done)
    ensures done + s[pos..] == StripFrom(s, 0)
  {
  }

  /** A step of `StripFrom` that finds a "<!--" without a "-->" after it. */
  lemma StripUnclosed(s: string, pos: nat, start: nat, done: string)
    requires pos < |s| && Find(s, "<!--", pos) == Some(start) && Find(s, "-->", start).None?
    requires Produced(s, pos, done)
    ensures (done + s[pos..start]) + s[start..] == StripFrom(s, 0)
  {
    assert StripFrom(s, pos) == s[pos..start] + s[start..];
    Regroup(done, s[pos..start], s[start..], StripFrom(s, pos), StripFrom(s, 0));
  }

  /** A step of `StripFrom` that drops one comment. */
  lemma StripClosed(s: string, pos: nat, start: nat, end: nat, next: nat, done: string)
    requires pos < |s| && Find(s, "<!--", pos) == Some(start) && Find(s, "-->", start) == Some(end)
    requires next == end + 3 && Produced(s, pos, done)
    ensures next <= |s| && Produced(s, next, done + s[pos..start])
  {
    StripCut(s, pos, start, end, next);
    Regroup(done, s[pos..start], StripFrom(s, next), StripFrom(s, pos), StripFrom(s, 0));
  }

  /** The step `StripClosed` takes, on `StripFrom` alone. */
  lemma StripCut(s: string, pos: nat, start: nat, end: nat, next: nat)
    requires pos < |s| && Find(s, "<!--", pos) == Some(start) && Find(s, "-->", start) == Some(end)
    requires next == end + 3
    ensures next <= |s| && StripFrom(s, pos) == s[pos..start] + StripFrom(s, next)
  {
  }

  /** At the end of the input everything has been produced. */
  lemma StripEnd(s: string, done: string)
    requires Produced(s, |s|, done)
    ensures done == StripFrom(s, 0)
  {
    assert done + [] == done;
  }

  /** `removeComments(xmlContent)`. */
  method RemoveComments(xmlContent: string) returns (result: string)
    ensures result == StripFrom(xmlContent, 0)
  {
    result := "";
    var pos: nat := 0;
    while pos < |xmlContent|
      invariant pos <= |xmlContent| && Produced(xmlContent, pos, result)
      decreases |xmlContent| - pos
    {
      var start := Find(xmlContent, "<!--", pos);
      if start.None? {
        StripNone(xmlContent, pos, result);
        result := result + xmlContent[pos..];
        return;
      }
      ghost var before := result;
      result := result + xmlContent[pos..start.value];
      var end := Find(xmlContent, "-->", start.value);
      if end.None? {
        StripUnclosed(xmlContent, pos, start.value, before);
        result := result + xmlContent[start.value..];
        return;
      }
      var next := end.value + 3;
      StripClosed(xmlContent, pos, start.value, end.value, next, before);
      pos := next;
    }
    StripEnd(xmlContent, result);
  }

  /** Text without any "<!--" comes back unchanged. */
  lemma NoCommentUnchanged(s: string)
    requires forall k :: !OccursAt(s, "<!--", k)
    ensures StripFrom(s, 0) == s
  {
    FindSpec(s, "<!--", 0);
  }

  /** An unterminated "<!--" and everything after it are copied verbatim. */
  lemma UnterminatedKept(s: string, pos: nat, start: nat)
    requires pos < |s|
    requires Find(s, "<!--", pos) == Some(start)
    requires Find(s, "-->", start).None?
    ensures StripFrom(s, pos) == s[pos..]
  {
    SliceJoin(s, pos, start);
  }

  /** A complete comment is at least the five characters of "<!-->". */
  lemma ClosedCommentLength(s: string, start: nat, end: nat)
    requires OccursAt(s, "<!--", start) && OccursAt(s, "-->", end) && start <= end
    ensures start + 5 <= end + 3
  {
    OccursAtIndex(s, "<!--", start, 1);
    OccursAtIndex(s, "<!--", start, 3);
    OccursAtIndex(s, "-->", end, 0);
    OccursAtIndex(s, "-->", end, 2);
  }

  /** Cutting a comment out keeps the text before it and shortens the input by at least five. */
  lemma CommentCut(s: string, pos: nat, start: nat, end: nat, next: nat)
    requires pos < |s| && Find(s, "<!--", pos) == Some(start) && Find(s, "-->", start) == Some(end)
    requires next == end + 3
    ensures start + 5 <= next <= |s|
    ensures |StripFrom(s, pos)| == start - pos + |StripFrom(s, next)|
  {
    CommentBounds(s, pos, start, end);
    StripCut(s, pos, start, end, next);
  }

  /** A comment found by the two searches spans at least five characters inside the input. */
  lemma CommentBounds(s: string, pos: nat, start: nat, end: nat)
    requires Find(s, "<!--", pos) == Some(start) && Find(s, "-->", start) == Some(end)
    ensures pos <= start && start + 5 <= end + 3 <= |s|
  {
    FindFound(s, "<!--", pos);
    FindFound(s, "-->", start);
    ClosedCommentLength(s, start, end);
  }

  /** A "<!--" without a "-->" leaves the rest as it is. */
  lemma UnclosedLength(s: string, pos: nat, start: nat)
    requires pos < |s| && Find(s, "<!--", pos) == Some(start) && Find(s, "-->", start).None?
    ensures |StripFrom(s, pos)| == |s| - pos
  {
    assert StripFrom(s, pos) == s[pos..start] + s[start..];
  }

  /**
   * The result is never longer than the input; when a comment is removed it
   * is at least five characters shorter.
   */
  lemma {:induction false} StripNotLonger(s: string, pos: nat)
    requires pos <= |s|
    ensures |StripFrom(s, pos)| <= |s| - pos
    ensures pos < |s| && Find(s, "<!--", pos).Some? && Find(s, "-->", Find(s, "<!--", pos).value).Some? ==>
      |StripFrom(s, pos)| + 5 <= |s| - pos
    decreases |s| - pos
  {
    if pos < |s| {
      match Find(s, "<!--", pos)
      case None =>
        StripTail(s, pos);
      case Some(start) =>
        match Find(s, "-->", start)
        case None =>
          UnclosedLength(s, pos, start);
        case Some(end) =>
          var next := end + 3;
          CommentCut(s, pos, start, end, next);
          StripNotLonger(s, next);
    }
  }

  /** With no "<!--" from `pos` on, the rest is copied as it is. */
  lemma StripTail(s: string, pos: nat)
    requires pos <= |s| && Find(s, "<!--", pos).None?
    ensures StripFrom(s, pos) == s[pos..]
  {
  }

  /** A single closed comment is cut out of a text that has no other. */
  lemma StripOnly(s: string, start: nat, end: nat)
    requires Find(s, "<!--", 0) == Some(start) && Find(s, "-->", start) == Some(end)
    requires Find(s, "<!--", end + 3).None?
    ensures StripFrom(s, 0) == s[..start] + s[end + 3..]
  {
    assert StripFrom(s, 0) == s[0..start] + StripFrom(s, end + 3);
    StripTail(s, end + 3);
    assert s[0..start] == s[..start];
  }

  /** Where the parts of `before + "<!--" + body + "-->" + after` sit. */
  lemma CommentLayout(before: string, body: string, after: string)
    requires '!' !in before && '>' !in body && '!' !in after
    ensures var s := before + "<!--" + body + "-->" + after;
      var start := |before|;
      var end := |before| + 4 + |body|;
      && |s| == end + 3 + |after|
      && OccursAt(s, "<!--", start) && OccursAt(s, "-->", end)
      && s[..start] == before && s[end + 3..] == after
      && (forall j | 0 <= j < start :: s[j] != '!')
      && (forall j | start + 4 <= j < end :: s[j] != '>')
      && (forall j | end + 3 <= j < |s| :: s[j] != '!')
  {
    var s := before + "<!--" + body + "-->" + after;
    var start := |before|;
    var end := |before| + 4 + |body|;
    assert s[start..start + 4] == "<!--";
    assert s[end..end + 3] == "-->";
    forall j | 0 <= j < start ensures s[j] != '!' {
      assert s[j] == before[j];
    }
    forall j | start + 4 <= j < end ensures s[j] != '>' {
      assert s[j] == body[j - start - 4];
    }
    forall j | end + 3 <= j < |s| ensures s[j] != '!' {
      assert s[j] == after[j - end - 3];
    }
  }

  /** The first "<!--" is the one at `start` when no '!' comes before it. */
  lemma OpenFound(s: string, start: nat)
    requires OccursAt(s, "<!--", start)
    requires forall j | 0 <= j < start :: s[j] != '!'
    ensures Find(s, "<!--", 0) == Some(start)
  {
    OccursAtIndex(s, "<!--", start, 0);
    FindFirst(s, "<!--", 0, start, 1);
  }

  /** The first "-->" from `start` is the one at `end` when no '>' comes between them. */
  lemma CloseFound(s: string, start: nat, end: nat)
    requires start + 4 <= end && OccursAt(s, "<!--", start) && OccursAt(s, "-->", end)
    requires forall j | start + 4 <= j < end :: s[j] != '>'
    ensures Find(s, "-->", start) == Some(end)
  {
    OccursAtIndex(s, "<!--", start, 2);
    OccursAtIndex(s, "<!--", start, 3);
    OccursAtIndex(s, "-->", end, 0);
    OccursAtIndex(s, "-->", end, 1);
    FindFirst(s, "-->", start, end, 2);
  }

  /** The comment between `start` and `end` is the only one, so only it is cut out. */
  lemma StripOneAt(s: string, start: nat, end: nat)
    requires start + 4 <= end && end + 3 <= |s|
    requires OccursAt(s, "<!--", start) && OccursAt(s, "-->", end)
    requires forall j | 0 <= j < start :: s[j] != '!'
    requires forall j | start + 4 <= j < end :: s[j] != '>'
    requires forall j | end + 3 <= j < |s| :: s[j] != '!'
    ensures StripFrom(s, 0) == s[..start] + s[end + 3..]
  {
    OpenFound(s, start);
    CloseFound(s, start, end);
    FindNone(s, "<!--", end + 3, 1);
    StripOnly(s, start, end);
  }

  /**
   * One complete comment between two comment-free stretches is cut out:
   * `before + "<!--" + body + "-->" + after` becomes `before + after`.
   * (The unit test's "<tag><!-- This is a comment -->content</tag>" is the
   * instance before = "<tag>", body = " This is a comment ", after = "content</tag>".)
   */
  lemma StripOneComment(before: string, body: string, after: string)
    requires '!' !in before && '>' !in body && '!' !in after
    ensures StripFrom(before + "<!--" + body + "-->" + after, 0) == before + after
  {
    CommentLayout(before, body, after);
    StripOneAt(before + "<!--" + body + "-->" + after, |before|, |before| + 4 + |body|);
  }

  /** The closing search starts at the opening itself, so "<!-->" is a whole comment. */
  lemma ShortestComment()
    ensures StripFrom("a<!-->b", 0) == "ab"
  {
    var s := "a<!-->b";
    assert s[1..5] == "<!--";
    FindFirst(s, "<!--", 0, 1, 0);
    assert s[3..6] == "-->";
    FindFirst(s, "-->", 1, 3, 2);
    FindNone(s, "<!--", 6, 0);
    StripOnly(s, 1, 3);
  }

  // ---------------------------------------------------------------------------
  // XML_Node and parse_xml_bracket
  // ---------------------------------------------------------------------------

  /** `XML_Node`: a tag name, the raw text of each child element and the tag's parameters. */
  datatype XmlNode = XmlNode(tagName: string, children: seq<string>, parameters: map<string, string>)

  /**
   * The places where `parse_xml_bracket` meets `npos`. The source prints an
   * error and then computes on with the wrapped-around index; the model stops.
   */
  datatype XmlError =
    | NoOpeningBracket              // no '<' at all
    | NoClosingBracket              // no '>' after the first '<'
    | NoQuoteAfterEquals            // a '=' with no '"' after it
    | NoClosingTag(tag: string)     // no "</tag>" after the opening tag
    | IncompleteChildTag            // a child '<' with no '>' after it
    | NoClosingChildTag(tag: string) // a child without its "</tag>"

  /** The name of a tag: its text up to the first space, or all of it. */
  function TagName(tag: string): (name: string)
    ensures |name| <= |tag| && name == tag[..|name|]
    ensures ' ' !in name
    ensures |name| < |tag| ==> tag[|name|] == ' '
  {
    IndexOfGap(tag, ' ', 0);
    match IndexOf(tag, ' ', 0)
    case None => tag
    case Some(k) => tag[..k]
  }

  /** What one turn of the parameter loop finds from a key position. */
  datatype PairScan =
    | NoMorePairs                                          // no '=' left: the loop breaks
    | BadPair(error: XmlError)                             // a '=' with no '"' after it
    | GoodPair(key: string, value: string, next: Option<nat>) // next key, or the loop ends

  /**
   * One turn of the key/value loop of `parse_xml_bracket`: the key runs from
   * `keyStart` to the next '=', the value from just after the first '"'
   * following that '=' to the next '"' (or to the end of the tag when there is
   * none, which also ends the loop), and the next key starts just after the
   * first space from the closing quote on.
   */
  function PairAt(tag: string, keyStart: nat): (r: PairScan)
    requires keyStart <= |tag|
    ensures r.GoodPair? ==> '=' !in r.key && '"' !in r.value
    ensures r.GoodPair? && r.next.Some? ==> keyStart < r.next.value <= |tag|
  {
    match IndexOf(tag, '=', keyStart)
    case None => NoMorePairs
    case Some(keyEnd) =>
      IndexOfGap(tag, '=', keyStart);
      match IndexOf(tag, '"', keyEnd)
      case None => BadPair(NoQuoteAfterEquals)
      case Some(quote) =>
        IndexOfGap(tag, '"', quote + 1);
        var key := tag[keyStart..keyEnd];
        match IndexOf(tag, '"', quote + 1)
        case None => GoodPair(key, tag[quote + 1..], None)
        case Some(valueEnd) =>
          var value := tag[quote + 1..valueEnd];
          match IndexOf(tag, ' ', valueEnd)
          case None => GoodPair(key, value, None)
          case Some(space) => GoodPair(key, value, Some(space + 1))
  }

  /** The key/value loop of `parse_xml_bracket` from `keyStart` on; a later pair with the same key overwrites. */
  function ParamsFrom(tag: string, keyStart: nat, params: map<string, string>): Result<map<string, string>, XmlError>
    requires keyStart <= |tag|
    decreases |tag| - keyStart
  {
    match PairAt(tag, keyStart)
    case NoMorePairs => Ok(params)
    case BadPair(e) => Err(e)
    case GoodPair(key, value, next) =>
      if next.None? then Ok(params[key := value]) else ParamsFrom(tag, next.value, params[key := value])
  }

  /**
   * The child loop of `parse_xml_bracket` from `from` on: a child starts at the
   * next '<' and ends just after the first "</name>" found from the '>' of its
   * own opening tag, where name is that opening tag's name.
   */
  function ChildrenFrom(body: string, from: nat, acc: seq<string>): Result<seq<string>, XmlError>
    requires from <= |body|
    decreases |body| - from
  {
    match IndexOf(body, '<', from)
    case None => Ok(acc)
    case Some(open) =>
      match ChildEnd(body, open)
      case Err(e) => Err(e)
      case Ok(stop) => ChildrenFrom(body, stop, acc + [body[open..stop]])
  }

  /**
   * Where the child whose '<' is at `open` ends: just after the first
   * "</name>" found from the '>' of its opening tag.
   */
  function ChildEnd(body: string, open: nat): (r: Result<nat, XmlError>)
    requires open < |body| && body[open] == '<'
    ensures r.Ok? ==> open + 4 <= r.value <= |body| && body[r.value - 1] == '>'
  {
    match IndexOf(body, '>', open)
    case None => Err(IncompleteChildTag)
    case Some(close) =>
      var name := TagName(body[open + 1..close]);
      match Find(body, "</" + name + ">", close)
      case None => Err(NoClosingChildTag(name))
      case Some(endTag) =>
        FindFound(body, "</" + name + ">", close);
        OccursAtIndex(body, "</" + name + ">", endTag, |name| + 2);
        Ok(endTag + |name| + 3)
  }

  /** The child loop stops at a child it cannot delimit. */
  lemma ChildrenFail(body: string, from: nat, acc: seq<string>, open: nat)
    requires from <= |body|
    requires IndexOf(body, '<', from) == Some(open)
    requires ChildEnd(body, open).Err?
    ensures ChildrenFrom(body, from, acc) == Err(ChildEnd(body, open).error)
  {
  }

  /** The child loop ends when no '<' is left. */
  lemma ChildrenDone(body: string, from: nat, acc: seq<string>)
    requires from <= |body|
    requires IndexOf(body, '<', from).None?
    ensures ChildrenFrom(body, from, acc) == Ok(acc)
  {
  }

  /** One turn of the child loop. */
  lemma ChildrenStep(body: string, from: nat, acc: seq<string>, open: nat, stop: nat)
    requires from <= |body|
    requires IndexOf(body, '<', from) == Some(open)
    requires ChildEnd(body, open) == Ok(stop)
    ensures ChildrenFrom(body, from, acc) == ChildrenFrom(body, stop, acc + [body[open..stop]])
  {
  }

  /** What `parse_xml_bracket` makes of one child text. */
  type Parsed = Result<XmlNode, XmlError>

  /** `parse_xml_bracket` applied to each text, in order. */
  function ParseAll(texts: seq<string>): (r: seq<Parsed>)
    ensures |r| == |texts|
  {
    seq(|texts|, i requires 0 <= i < |texts| => ParseBracket(texts[i]))
  }

  /** The whole of `parse_xml_bracket(xml)`. */
  function ParseBracket(xml: string): Result<XmlNode, XmlError>
  {
    match IndexOf(xml, '<', 0)
    case None => Err(NoOpeningBracket)
    case Some(startPos) =>
      match IndexOf(xml, '>', startPos)
      case None => Err(NoClosingBracket)
      case Some(endPos) => ParseElement(xml, startPos, endPos)
  }

  /** The parameters of a tag: none when its name is all of it. */
  function TagParameters(fullTag: string): Result<map<string, string>, XmlError>
  {
    var tagName := TagName(fullTag);
    if |tagName| == |fullTag| then Ok(map[]) else ParamsFrom(fullTag, |tagName| + 1, map[])
  }

  /** The element whose opening tag spans `xml[startPos..endPos + 1]`. */
  function ParseElement(xml: string, startPos: nat, endPos: nat): Result<XmlNode, XmlError>
    requires startPos < endPos < |xml| && xml[endPos] == '>'
  {
    var fullTag := xml[startPos + 1..endPos];
    var tagName := TagName(fullTag);
    match TagParameters(fullTag)
    case Err(e) => Err(e)
    case Ok(params) =>
      match Find(xml, "</" + tagName + ">", endPos)
      case None => Err(NoClosingTag(tagName))
      case Some(closing) =>
        ClosingTagStart(xml, tagName, endPos);
        match ChildrenFrom(xml[endPos + 1..closing], 0, [])
        case Err(e) => Err(e)
        case Ok(children) => Ok(XmlNode(tagName, children, params))
  }

  /** A closing tag found after a '>' starts strictly after it. */
  lemma ClosingTagStart(s: string, name: string, gt: nat)
    requires gt < |s| && s[gt] == '>'
    requires Find(s, "</" + name + ">", gt).Some?
    ensures gt < Find(s, "</" + name + ">", gt).value
  {
    FindFound(s, "</" + name + ">", gt);
    OccursAtIndex(s, "</" + name + ">", Find(s, "</" + name + ">", gt).value, 0);
  }

  /** One turn of the parameter loop: the '=', the quotes and the following space. */
  method ScanPair(fullTag: string, keyStart: nat) returns (r: PairScan)
    requires keyStart <= |fullTag|
    ensures r == PairAt(fullTag, keyStart)
  {
    var keyEnd := IndexOf(fullTag, '=', keyStart);
    if keyEnd.None? {
      return NoMorePairs;
    }
    var quote := IndexOf(fullTag, '"', keyEnd.value);
    if quote.None? {
      return BadPair(NoQuoteAfterEquals);
    }
    var valueStart := quote.value + 1;
    var valueEnd := IndexOf(fullTag, '"', valueStart);
    var key := fullTag[keyStart..keyEnd.value];
    if valueEnd.None? {
      return GoodPair(key, fullTag[valueStart..], None);
    }
    var value := fullTag[valueStart..valueEnd.value];
    var space := IndexOf(fullTag, ' ', valueEnd.value);
    if space.None? {
      return GoodPair(key, value, None);
    }
    r := GoodPair(key, value, Some(space.value + 1));
  }

  /** The parameter loop of `parse_xml_bracket`, starting at the first key. */
  method ParseParameters(fullTag: string, firstKey: nat) returns (r: Result<map<string, string>, XmlError>)
    requires firstKey <= |fullTag|
    ensures r == ParamsFrom(fullTag, firstKey, map[])
  {
    var parameters: map<string, string> := map[];
    var keyStart: Option<nat> := Some(firstKey);
    while keyStart.Some?
      invariant keyStart.Some? ==> keyStart.value <= |fullTag|
      invariant ParamsFrom(fullTag, firstKey, map[]) ==
        if keyStart.None? then Ok(parameters) else ParamsFrom(fullTag, keyStart.value, parameters)
      decreases if keyStart.Some? then |fullTag| + 1 - keyStart.value else 0
    {
      var pair := ScanPair(fullTag, keyStart.value);
      if pair.NoMorePairs? {
        break;
      } else if pair.BadPair? {
        return Err(pair.error);
      }
      parameters := parameters[pair.key := pair.value];
      keyStart := pair.next;
    }
    r := Ok(parameters);
  }

  /** The scan for the end of one child: its opening tag's '>', name and closing tag. */
  method ScanChild(body: string, open: nat) returns (r: Result<nat, XmlError>)
    requires open < |body| && body[open] == '<'
    ensures r == ChildEnd(body, open)
  {
    var close := IndexOf(body, '>', open);
    if close.None? {
      return Err(IncompleteChildTag);
    }
    var childName := TagName(body[open + 1..close.value]);
    var endTag := Find(body, "</" + childName + ">", close.value);
    if endTag.None? {
      return Err(NoClosingChildTag(childName));
    }
    r := Ok(endTag.value + |childName| + 3);
  }

  /** The child loop of `parse_xml_bracket` over the text between the tags. */
  method CollectChildren(body: string) returns (r: Result<seq<string>, XmlError>)
    ensures r == ChildrenFrom(body, 0, [])
  {
    var children: seq<string> := [];
    ghost var from: nat := 0;
    var childStart := IndexOf(body, '<', 0);
    while childStart.Some?
      invariant from <= |body|
      invariant childStart == IndexOf(body, '<', from)
      invariant ChildrenFrom(body, from, children) == ChildrenFrom(body, 0, [])
      decreases |body| - from
    {
      var open := childStart.value;
      var stop := ScanChild(body, open);
      if stop.Err? {
        ChildrenFail(body, from, children, open);
        return Err(stop.error);
      }
      ChildrenStep(body, from, children, open, stop.value);
      children := children + [body[open..stop.value]];
      from := stop.value;
      childStart := IndexOf(body, '<', stop.value);
    }
    ChildrenDone(body, from, children);
    r := Ok(children);
  }

  /** `parse_xml_bracket`: the opening tag, its parameters, then its children. */
  method ParseXmlBracket(xml: string) returns (r: Result<XmlNode, XmlError>)
    ensures r == ParseBracket(xml)
  {
    var startPos := IndexOf(xml, '<', 0);
    if startPos.None? {
      return Err(NoOpeningBracket);
    }
    var endPos := IndexOf(xml, '>', startPos.value);
    if endPos.None? {
      return Err(NoClosingBracket);
    }
    r := ParseElementAt(xml, startPos.value, endPos.value);
  }

  /** The tag name and the parameter map of an opening tag's text. */
  method ParseTag(fullTag: string) returns (tagName: string, r: Result<map<string, string>, XmlError>)
    ensures tagName == TagName(fullTag) && r == TagParameters(fullTag)
  {
    var tagNameEnd := IndexOf(fullTag, ' ', 0);
    if tagNameEnd.None? {
      tagName := fullTag;
      r := Ok(map[]);
    } else {
      tagName := fullTag[..tagNameEnd.value];
      r := ParseParameters(fullTag, tagNameEnd.value + 1);
    }
  }

  /** The rest of parse_xml_bracket once the opening tag is delimited. */
  method ParseElementAt(xml: string, startPos: nat, endPos: nat) returns (r: Result<XmlNode, XmlError>)
    requires startPos < endPos < |xml| && xml[endPos] == '>'
    ensures r == ParseElement(xml, startPos, endPos)
  {
    var fullTag := xml[startPos + 1..endPos];
    var tagName, parameters := ParseTag(fullTag);
    if parameters.Err? {
      return Err(parameters.error);
    }
    var closing := Find(xml, "</" + tagName + ">", endPos);
    if closing.None? {
      return Err(NoClosingTag(tagName));
    }
    ClosingTagStart(xml, tagName, endPos);
    var children := CollectChildren(xml[endPos + 1..closing.value]);
    if children.Err? {
      return Err(children.error);
    }
    r := Ok(XmlNode(tagName, children.value, parameters.value));
  }

  // ---------------------------------------------------------------------------
  // Properties of parse_xml_bracket
  // ---------------------------------------------------------------------------

  /** Where the parts of `pre + key="value" + rest` sit. */
  lemma PairLayout(pre: string, key: string, value: string, rest: string, tag: string, keyEnd: nat, valueEnd: nat)
    requires tag == pre + key + "=\"" + value + "\"" + rest
    requires keyEnd == |pre| + |key| && valueEnd == keyEnd + 2 + |value|
    ensures |pre| <= keyEnd && keyEnd + 2 <= valueEnd < |tag| && |tag| == valueEnd + 1 + |rest|
    ensures tag[|pre|..keyEnd] == key && tag[keyEnd] == '=' && tag[keyEnd + 1] == '"'
    ensures tag[keyEnd + 2..valueEnd] == value && tag[valueEnd] == '"'
    ensures rest != [] ==> tag[valueEnd + 1] == rest[0]
  {
    assert tag[|pre|..keyEnd] == key;
    assert tag[keyEnd + 2..valueEnd] == value;
  }

  /** One well-formed pair, stated on positions. */
  lemma PairAtIs(tag: string, a: nat, keyEnd: nat, valueEnd: nat)
    requires a <= keyEnd && keyEnd + 2 <= valueEnd < |tag|
    requires '=' !in tag[a..keyEnd] && tag[keyEnd] == '=' && tag[keyEnd + 1] == '"'
    requires '"' !in tag[keyEnd + 2..valueEnd] && tag[valueEnd] == '"'
    requires valueEnd + 1 == |tag| || tag[valueEnd + 1] == ' '
    ensures PairAt(tag, a) ==
      GoodPair(tag[a..keyEnd], tag[keyEnd + 2..valueEnd], if valueEnd + 1 == |tag| then None else Some(valueEnd + 2))
  {
    IndexOfIs(tag, '=', a, keyEnd);
    IndexOfIs(tag, '"', keyEnd, keyEnd + 1);
    IndexOfIs(tag, '"', keyEnd + 2, valueEnd);
    if valueEnd + 1 == |tag| {
      assert tag[valueEnd..] == ['"'];
      IndexOfNone(tag, ' ', valueEnd);
    } else {
      assert tag[valueEnd..valueEnd + 1] == ['"'];
      IndexOfIs(tag, ' ', valueEnd, valueEnd + 1);
    }
  }

  /** One turn of the key/value loop over a well-formed pair, stated on positions. */
  lemma ParamsStep(tag: string, a: nat, keyEnd: nat, valueEnd: nat, next: nat, last: bool,
                   key: string, value: string, params: map<string, string>)
    requires a <= keyEnd && keyEnd + 2 <= valueEnd < |tag| && next == valueEnd + 2
    requires last <==> valueEnd + 1 == |tag|
    requires tag[a..keyEnd] == key && tag[keyEnd + 2..valueEnd] == value
    requires '=' !in key && tag[keyEnd] == '=' && tag[keyEnd + 1] == '"'
    requires '"' !in value && tag[valueEnd] == '"'
    requires valueEnd + 1 == |tag| || tag[valueEnd + 1] == ' '
    ensures !last ==> next <= |tag|
    ensures ParamsFrom(tag, a, params) ==
      if last then Ok(params[key := value]) else ParamsFrom(tag, next, params[key := value])
  {
    PairAtIs(tag, a, keyEnd, valueEnd);
  }

  /**
   * A `key="value"` pair starting at the current key position lands in the
   * map, the value being the text between the two quotes; the loop then ends
   * or goes on with the key after the following space.
   */
  lemma ParamPair(pre: string, key: string, value: string, rest: string, next: nat, params: map<string, string>)
    requires '=' !in key && '"' !in value
    requires rest == [] || rest[0] == ' '
    requires next == |pre| + |key| + |value| + 4
    ensures var tag := pre + key + "=\"" + value + "\"" + rest;
      ParamsFrom(tag, |pre|, params) ==
        if rest == [] then Ok(params[key := value]) else ParamsFrom(tag, next, params[key := value])
  {
    var tag := pre + key + "=\"" + value + "\"" + rest;
    var keyEnd := |pre| + |key|;
    var valueEnd := keyEnd + 2 + |value|;
    PairLayout(pre, key, value, rest, tag, keyEnd, valueEnd);
    ParamsStep(tag, |pre|, keyEnd, valueEnd, next, rest == [], key, value, params);
  }

  /** Every key lacks '=' and every value lacks '"'. */
  predicate WellFormedParams(m: map<string, string>)
  {
    forall k | k in m :: '=' !in k && '"' !in m[k]
  }

  /**
   * Keys are cut at the first '=' and values at the next '"' (or run to the
   * end of the tag), so no key holds '=' and no value holds '"'.
   */
  lemma {:induction false} ParamsWellFormed(tag: string, keyStart: nat, params: map<string, string>)
    requires keyStart <= |tag| && WellFormedParams(params)
    requires ParamsFrom(tag, keyStart, params).Ok?
    ensures WellFormedParams(ParamsFrom(tag, keyStart, params).value)
    decreases |tag| - keyStart
  {
    var pair := PairAt(tag, keyStart);
    if pair.GoodPair? {
      WellFormedUpdate(params, pair.key, pair.value);
      if pair.next.Some? {
        ParamsWellFormed(tag, pair.next.value, params[pair.key := pair.value]);
      }
    }
  }

  lemma WellFormedUpdate(m: map<string, string>, key: string, value: string)
    requires WellFormedParams(m) && '=' !in key && '"' !in value
    ensures WellFormedParams(m[key := value])
  {
  }

  /** Where the parts of `pre + key="first" key="second"` sit. */
  lemma TwoPairLayout(pre: string, key: string, first: string, second: string, tag: string,
                      keyEnd1: nat, valueEnd1: nat, next: nat, keyEnd2: nat, valueEnd2: nat)
    requires tag == pre + key + "=\"" + first + "\" " + key + "=\"" + second + "\""
    requires keyEnd1 == |pre| + |key| && valueEnd1 == keyEnd1 + 2 + |first| && next == valueEnd1 + 2
    requires keyEnd2 == next + |key| && valueEnd2 == keyEnd2 + 2 + |second|
    ensures |pre| <= keyEnd1 && keyEnd1 + 2 <= valueEnd1 && valueEnd1 + 1 < |tag|
    ensures tag[|pre|..keyEnd1] == key && tag[keyEnd1 + 2..valueEnd1] == first
    ensures tag[keyEnd1] == '=' && tag[keyEnd1 + 1] == '"' && tag[valueEnd1] == '"' && tag[valueEnd1 + 1] == ' '
    ensures next <= keyEnd2 && keyEnd2 + 2 <= valueEnd2 && valueEnd2 + 1 == |tag|
    ensures tag[next..keyEnd2] == key && tag[keyEnd2 + 2..valueEnd2] == second
    ensures tag[keyEnd2] == '=' && tag[keyEnd2 + 1] == '"' && tag[valueEnd2] == '"'
  {
    var rest := " " + key + "=\"" + second + "\"";
    assert tag == pre + key + "=\"" + first + "\"" + rest;
    PairLayout(pre, key, first, rest, tag, keyEnd1, valueEnd1);
    var pre' := pre + key + "=\"" + first + "\" ";
    assert tag == pre' + key + "=\"" + second + "\"" + [];
    PairLayout(pre', key, second, [], tag, keyEnd2, valueEnd2);
  }

  /** Of two pairs with the same key, the later value is the one kept. */
  lemma RepeatedKeyKeepsLast(pre: string, key: string, first: string, second: string, params: map<string, string>)
    requires '=' !in key && '"' !in first && '"' !in second
    ensures ParamsFrom(pre + key + "=\"" + first + "\" " + key + "=\"" + second + "\"", |pre|, params)
      == Ok(params[key := second])
  {
    var tag := pre + key + "=\"" + first + "\" " + key + "=\"" + second + "\"";
    var keyEnd1 := |pre| + |key|;
    var valueEnd1 := keyEnd1 + 2 + |first|;
    var next := valueEnd1 + 2;
    var keyEnd2 := next + |key|;
    var valueEnd2 := keyEnd2 + 2 + |second|;
    TwoPairLayout(pre, key, first, second, tag, keyEnd1, valueEnd1, next, keyEnd2, valueEnd2);
    ParamsStep(tag, |pre|, keyEnd1, valueEnd1, next, false, key, first, params);
    ParamsStep(tag, next, keyEnd2, valueEnd2, valueEnd2 + 2, true, key, second, params[key := first]);
    assert params[key := first][key := second] == params[key := second];
  }

  /** One turn of the child loop from `start`: the child opens at the next '<' and closes at `stop`. */
  predicate Turn(body: string, start: nat, open: nat, stop: nat)
  {
    start <= open < stop <= |body| &&
    IndexOf(body, '<', start) == Some(open) &&
    ChildEnd(body, open) == Ok(stop)
  }

  /**
   * `spans` are the turns of the child loop from `from`, in document order:
   * each child opens at the first '<' at or after the end of the one before,
   * closes where `ChildEnd` says, and no '<' is left after the last child.
   */
  predicate Turns(body: string, from: nat, spans: seq<(nat, nat)>)
    decreases |spans|
  {
    if |spans| == 0 then IndexOf(body, '<', from).None?
    else Turn(body, from, spans[0].0, spans[0].1) && Turns(body, spans[0].1, spans[1..])
  }

  /** Where turn `i` looks for its '<': `from` first, then the end of the previous child. */
  function TurnStart(from: nat, spans: seq<(nat, nat)>, i: nat): nat
    requires i <= |spans|
  {
    if i == 0 then from else spans[i - 1].1
  }

  /** `cs` is `acc` followed by the substrings of `body` that `spans` delimit. */
  predicate CutFrom(body: string, spans: seq<(nat, nat)>, acc: seq<string>, cs: seq<string>)
  {
    |cs| == |acc| + |spans| && cs[..|acc|] == acc &&
    forall i | 0 <= i < |spans| ::
      spans[i].0 <= spans[i].1 <= |body| && cs[|acc| + i] == body[spans[i].0..spans[i].1]
  }

  /**
   * Turn by turn: child i opens at the first '<' from the end of child i-1
   * (from `from` for the first), so the spans lie in document order,
   * o_0 < e_0 <= o_1 < e_1 <= ..., and no '<' is left after the last one.
   */
  lemma TurnsInOrder(body: string, from: nat, spans: seq<(nat, nat)>)
    requires Turns(body, from, spans)
    ensures forall i | 0 <= i < |spans| :: Turn(body, TurnStart(from, spans, i), spans[i].0, spans[i].1)
    ensures IndexOf(body, '<', TurnStart(from, spans, |spans|)).None?
  {
    forall i | 0 <= i < |spans|
      ensures Turn(body, TurnStart(from, spans, i), spans[i].0, spans[i].1)
    {
      TurnAt(body, from, spans, i);
    }
    TurnsLast(body, from, spans);
  }

  /** Turn i of the spans starts where turn i-1 ended. */
  lemma {:induction false} TurnAt(body: string, from: nat, spans: seq<(nat, nat)>, i: nat)
    requires Turns(body, from, spans) && i < |spans|
    ensures Turn(body, TurnStart(from, spans, i), spans[i].0, spans[i].1)
    decreases i
  {
    if i > 0 {
      TurnAt(body, spans[0].1, spans[1..], i - 1);
      assert spans[1..][i - 1] == spans[i];
      assert TurnStart(spans[0].1, spans[1..], i - 1) == TurnStart(from, spans, i);
    }
  }

  /** After the last span no '<' is left. */
  lemma {:induction false} TurnsLast(body: string, from: nat, spans: seq<(nat, nat)>)
    requires Turns(body, from, spans)
    ensures IndexOf(body, '<', TurnStart(from, spans, |spans|)).None?
    decreases |spans|
  {
    if |spans| > 0 {
      TurnsLast(body, spans[0].1, spans[1..]);
      assert TurnStart(spans[0].1, spans[1..], |spans| - 1) == TurnStart(from, spans, |spans|);
    }
  }

  /** Any turns from `from` are exactly what the child loop collects after `acc`. */
  lemma {:induction false} TurnsGiveChildren(body: string, from: nat, acc: seq<string>, spans: seq<(nat, nat)>)
    requires from <= |body|
    requires Turns(body, from, spans)
    ensures ChildrenFrom(body, from, acc).Ok?
    ensures CutFrom(body, spans, acc, ChildrenFrom(body, from, acc).value)
    decreases |spans|
  {
    if |spans| == 0 {
      ChildrenDone(body, from, acc);
    } else {
      var open, stop := spans[0].0, spans[0].1;
      var child := body[open..stop];
      ChildrenStep(body, from, acc, open, stop);
      TurnsGiveChildren(body, stop, acc + [child], spans[1..]);
      CutCons(body, spans, acc, ChildrenFrom(body, from, acc).value);
    }
  }

  /** Cutting the first span onto `acc` and then the rest is cutting all the spans. */
  lemma CutCons(body: string, spans: seq<(nat, nat)>, acc: seq<string>, cs: seq<string>)
    requires |spans| > 0 && spans[0].0 <= spans[0].1 <= |body|
    requires CutFrom(body, spans[1..], acc + [body[spans[0].0..spans[0].1]], cs)
    ensures CutFrom(body, spans, acc, cs)
  {
    var child := body[spans[0].0..spans[0].1];
    assert cs[..|acc|] == cs[..|acc| + 1][..|acc|] == (acc + [child])[..|acc|] == acc;
    assert cs[|acc|] == cs[..|acc| + 1][|acc|] == child;
    forall i | 1 <= i < |spans|
      ensures spans[i].0 <= spans[i].1 <= |body| && cs[|acc| + i] == body[spans[i].0..spans[i].1]
    {
      assert spans[i] == spans[1..][i - 1];
      assert |acc| + i == |acc + [child]| + (i - 1);
    }
  }

  /** Whenever the child loop succeeds, its children are cut out by turns from `from`. */
  lemma {:induction false} ChildrenHaveTurns(body: string, from: nat, acc: seq<string>)
    requires from <= |body|
    requires ChildrenFrom(body, from, acc).Ok?
    ensures exists spans :: Turns(body, from, spans) && CutFrom(body, spans, acc, ChildrenFrom(body, from, acc).value)
    decreases |body| - from
  {
    match IndexOf(body, '<', from)
    case None =>
      ChildrenDone(body, from, acc);
      assert Turns(body, from, []) && CutFrom(body, [], acc, acc);
    case Some(open) =>
      match ChildEnd(body, open)
      case Err(_) =>
        ChildrenFail(body, from, acc, open);
      case Ok(stop) =>
        var child := body[open..stop];
        ChildrenStep(body, from, acc, open, stop);
        ChildrenHaveTurns(body, stop, acc + [child]);
        var rest :| Turns(body, stop, rest) && CutFrom(body, rest, acc + [child], ChildrenFrom(body, stop, acc + [child]).value);
        var spans := [(open, stop)] + rest;
        assert spans[1..] == rest;
        assert Turns(body, from, spans);
        TurnsGiveChildren(body, from, acc, spans);
  }

  /** The turns from `from` are unique: the body alone fixes where the child loop cuts. */
  lemma {:induction false} TurnsUnique(body: string, from: nat, s: seq<(nat, nat)>, t: seq<(nat, nat)>)
    requires Turns(body, from, s) && Turns(body, from, t)
    ensures s == t
    decreases |s|
  {
    if |s| > 0 && |t| > 0 {
      TurnsUnique(body, s[0].1, s[1..], t[1..]);
      assert s == [s[0]] + s[1..] && t == [t[0]] + t[1..];
    }
  }

  /** A tag name with no space is the whole tag, or ends at the first space. */
  lemma TagNameOf(name: string, rest: string)
    requires ' ' !in name
    ensures TagName(name) == name
    ensures TagName(name + " " + rest) == name
  {
    IndexOfNone(name, ' ', 0);
    var tag := name + " " + rest;
    assert tag[0..|name|] == name;
    IndexOfIs(tag, ' ', 0, |name|);
  }

  /** Where the parts of the leaf element `<child></child>` sit. */
  lemma LeafLayout(child: string, element: string, c: nat)
    requires element == "<" + child + "></" + child + ">" && c == |child|
    ensures |element| == c + c + 5
    ensures element[0] == '<' && element[c + 1] == '>' && element[c + 2] == '<'
    ensures element[c + 3] == '/' && element[c + c + 4] == '>'
    ensures element[1..c + 1] == child && element[c + 4..c + c + 4] == child
    ensures forall j | 1 <= j < c + 1 :: element[j] == child[j - 1]
    ensures forall j | c + 4 <= j < c + c + 4 :: element[j] == child[j - c - 4]
  {
    assert element[1..c + 1] == child;
    assert element[c + 4..c + c + 4] == child;
  }

  /** Where a child ends, stated on the positions `ChildEnd` finds. */
  lemma ChildEndIs(body: string, open: nat, gt: nat, name: string, endTag: nat, stop: nat)
    requires open < gt < |body| && body[open] == '<' && IndexOf(body, '>', open) == Some(gt)
    requires TagName(body[open + 1..gt]) == name
    requires Find(body, "</" + name + ">", gt) == Some(endTag) && stop == endTag + |name| + 3
    ensures ChildEnd(body, open) == Ok(stop)
  {
  }

  /** The opening tag of a leaf element ends at its first '>' and is named `child`. */
  lemma LeafOpening(child: string, element: string, c: nat)
    requires ' ' !in child && '<' !in child && '>' !in child
    requires element == "<" + child + "></" + child + ">" && c == |child|
    ensures c + 1 < |element| && IndexOf(element, '>', 0) == Some(c + 1)
    ensures TagName(element[1..c + 1]) == child
  {
    LeafLayout(child, element, c);
    forall j | 0 <= j < c + 1 ensures element[j] != '>' {
      if 1 <= j {
        assert element[j] == child[j - 1];
      }
    }
    IndexOfIs(element, '>', 0, c + 1);
    TagNameOf(child, []);
  }

  /** A leaf element is one child reaching to its own end. */
  lemma LeafEnd(child: string, element: string, c: nat)
    requires ' ' !in child && '<' !in child && '>' !in child
    requires element == "<" + child + "></" + child + ">" && c == |child|
    ensures element[0] == '<' && ChildEnd(element, 0) == Ok(|element|)
  {
    LeafOpening(child, element, c);
    LeafLayout(child, element, c);
    var close := "</" + child + ">";
    assert element[c + 2..c + 2 + |close|] == close;
    Mismatch(element, close, c + 1, 0);
    FindIs(element, close, c + 1, c + 2);
    ChildEndIs(element, 0, c + 1, child, c + 2, |element|);
  }

  /** An element with no children and no parameters is a single child. */
  lemma LeafChild(child: string)
    requires ' ' !in child && '<' !in child && '>' !in child
    ensures var element := "<" + child + "></" + child + ">";
      ChildrenFrom(element, 0, []) == Ok([element])
  {
    var element := "<" + child + "></" + child + ">";
    LeafEnd(child, element, |child|);
    IndexOfIs(element, '<', 0, 0);
    ChildrenStep(element, 0, [], 0, |element|);
    assert element[0..|element|] == element;
    IndexOfNone(element, '<', |element|);
    ChildrenDone(element, |element|, [] + [element]);
    assert [] + [element] == [element];
  }

  /** An input starting with its opening tag is parsed as the element that tag opens. */
  lemma OpeningTag(xml: string, gt: nat)
    requires 0 < gt < |xml| && xml[0] == '<' && xml[gt] == '>' && '>' !in xml[1..gt]
    ensures ParseBracket(xml) == ParseElement(xml, 0, gt)
  {
    assert xml[0..0] == [];
    IndexOfIs(xml, '<', 0, 0);
    assert xml[0..gt] == [xml[0]] + xml[1..gt];
    IndexOfIs(xml, '>', 0, gt);
  }

  /** The tag `name key="value"` has name `name` and the single parameter `key` = `value`. */
  lemma OneParameterTag(name: string, key: string, value: string)
    requires ' ' !in name && '=' !in key && '"' !in value
    ensures var fullTag := name + " " + key + "=\"" + value + "\"";
      TagName(fullTag) == name && TagParameters(fullTag) == Ok(map[key := value])
  {
    var fullTag := name + " " + key + "=\"" + value + "\"";
    assert fullTag == name + " " + (key + "=\"" + value + "\"");
    TagNameOf(name, key + "=\"" + value + "\"");
    assert fullTag == (name + " ") + key + "=\"" + value + "\"" + [];
    ParamPair(name + " ", key, value, [], |name| + |key| + |value| + 5, map[]);
  }

  /** A closing tag "</name>" carries `name` two characters after where it starts. */
  lemma ClosingTagName(t: string, name: string, k: nat)
    ensures OccursAt(t, "</" + name + ">", k) ==> k + 2 + |name| <= |t| && t[k + 2..k + 2 + |name|] == name
  {
    var close := "</" + name + ">";
    if OccursAt(t, close, k) {
      assert close[2..2 + |name|] == name;
      assert t[k + 2..k + 2 + |name|] == t[k..k + |close|][2..2 + |name|];
    }
  }

  /** After a leaf child, the first closing tag of its parent is the parent's own. */
  lemma ClosingAfterLeaf(child: string, name: string)
    requires ' ' !in child && '<' !in child && '>' !in child && '/' !in child
    requires '>' !in name && child != name
    ensures var element := "<" + child + "></" + child + ">";
      var close := "</" + name + ">";
      Find(element + close, close, 0) == Some(|element|)
  {
    var element := "<" + child + "></" + child + ">";
    var close := "</" + name + ">";
    var t := element + close;
    var c := |child|;
    LeafLayout(child, element, c);
    assert t[|element|..|element| + |close|] == close;
    forall j | 0 <= j < |element| ensures !OccursAt(t, close, j) {
      assert t[j] == element[j];
      if j == 0 {
        assert t[1] == (if c == 0 then '>' else child[0]);
        Mismatch(t, close, 0, 1);
      } else if j == c + 2 {
        if |name| < c {
          assert t[j + |name| + 2] == child[|name|];
          Mismatch(t, close, j, |name| + 2);
        } else if |name| > c {
          assert t[j + c + 2] == '>';
          assert close[c + 2] == name[c];
          Mismatch(t, close, j, c + 2);
        } else {
          assert t[j + 2..j + 2 + |name|] == element[c + 4..c + c + 4];
          ClosingTagName(t, name, j);
        }
      } else {
        if 1 <= j < c + 1 {
          assert element[j] == child[j - 1];
        } else if c + 4 <= j < c + c + 4 {
          assert element[j] == child[j - c - 4];
        }
        Mismatch(t, close, j, 0);
      }
    }
    FindIs(t, close, 0, |element|);
  }

  /** An element assembled from its parts. */
  lemma ElementIs(xml: string, fullTag: string, body: string, gt: nat, closing: nat, params: map<string, string>, children: seq<string>)
    requires 0 < gt < closing <= |xml| && xml[gt] == '>' && xml[1..gt] == fullTag
    requires TagParameters(fullTag) == Ok(params)
    requires Find(xml, "</" + TagName(fullTag) + ">", gt) == Some(closing)
    requires xml[gt + 1..closing] == body && ChildrenFrom(body, 0, []) == Ok(children)
    ensures ParseElement(xml, 0, gt) == Ok(XmlNode(TagName(fullTag), children, params))
  {
  }

  /** An input laid out as an opening tag, a body and the matching closing tag. */
  lemma ElementAt(xml: string, fullTag: string, body: string, gt: nat, closing: nat,
                  params: map<string, string>, children: seq<string>)
    requires 0 < gt < closing <= |xml| && xml[0] == '<' && xml[gt] == '>'
    requires xml[1..gt] == fullTag && '>' !in fullTag
    requires Find(xml, "</" + TagName(fullTag) + ">", gt) == Some(closing)
    requires xml[gt + 1..closing] == body
    requires TagParameters(fullTag) == Ok(params) && ChildrenFrom(body, 0, []) == Ok(children)
    ensures ParseBracket(xml) == Ok(XmlNode(TagName(fullTag), children, params))
  {
    OpeningTag(xml, gt);
    ElementIs(xml, fullTag, body, gt, closing, params, children);
  }

  /** Where the parts of `<fullTag>` + body + close sit, and where the search for close stops. */
  lemma ElementLayout(fullTag: string, body: string, close: string, xml: string, gt: nat, closing: nat)
    requires 0 < |close| && close[0] == '<'
    requires Find(body + close, close, 0) == Some(|body|)
    requires xml == "<" + fullTag + ">" + (body + close)
    requires gt == |fullTag| + 1 && closing == gt + 1 + |body|
    ensures 0 < gt < closing <= |xml| && xml[0] == '<' && xml[gt] == '>'
    ensures xml[1..gt] == fullTag && xml[gt + 1..closing] == body
    ensures Find(xml, close, gt) == Some(closing)
  {
    var open := "<" + fullTag + ">";
    assert xml[1..gt] == fullTag;
    assert xml[gt + 1..closing] == body;
    assert |open| == gt + 1 && open[gt] == '>';
    ClosingAfterOpening(open, body + close, close, |body|, gt, closing);
  }

  /** A closing tag is searched for from the '>' of the opening tag onwards. */
  lemma ClosingAfterOpening(open: string, rest: string, close: string, at: nat, gt: nat, closing: nat)
    requires gt + 1 == |open| && open[gt] == '>' && 0 < |close| && close[0] == '<'
    requires Find(rest, close, 0) == Some(at) && closing == |open| + at
    ensures Find(open + rest, close, gt) == Some(closing)
  {
    FindSkip(open + rest, close, gt);
    FindShift(open, rest, close, 0);
  }

  /**
   * An element whose body holds no closing tag of its own name parses into
   * its name, its parameters and the children of its body.
   */
  lemma ParseSimpleElement(fullTag: string, name: string, body: string, close: string,
                           params: map<string, string>, children: seq<string>)
    requires '>' !in fullTag && TagName(fullTag) == name && close == "</" + name + ">"
    requires TagParameters(fullTag) == Ok(params)
    requires Find(body + close, close, 0) == Some(|body|)
    requires ChildrenFrom(body, 0, []) == Ok(children)
    ensures ParseBracket("<" + fullTag + ">" + (body + close)) == Ok(XmlNode(name, children, params))
  {
    var xml := "<" + fullTag + ">" + (body + close);
    var gt := |fullTag| + 1;
    var closing := gt + 1 + |body|;
    ElementLayout(fullTag, body, close, xml, gt, closing);
    ElementAt(xml, fullTag, body, gt, closing, params, children);
  }

  /** `name key="value"` holds no '>' when none of its parts does. */
  lemma NoGreaterThan(name: string, key: string, value: string)
    requires '>' !in name && '>' !in key && '>' !in value
    ensures '>' !in name + " " + key + "=\"" + value + "\""
  {
    var fullTag := name + " " + key + "=\"" + value + "\"";
    forall i | 0 <= i < |fullTag| ensures fullTag[i] != '>' {
      if i < |name| {
        assert fullTag[i] == name[i];
      } else if |name| + 1 <= i < |name| + 1 + |key| {
        assert fullTag[i] == key[i - |name| - 1];
      } else if |name| + 3 + |key| <= i < |name| + 3 + |key| + |value| {
        assert fullTag[i] == value[i - |name| - 3 - |key|];
      }
    }
  }

  /**
   * The unit test's element, for any names: `<name key="value"><child></child></name>`
   * has tag `name`, the single parameter `key` = `value` and exactly one child.
   */
  lemma ParseNodeWithChild(name: string, key: string, value: string, child: string)
    requires ' ' !in name && '<' !in name && '>' !in name
    requires '=' !in key && '>' !in key
    requires '"' !in value && '>' !in value
    requires ' ' !in child && '<' !in child && '>' !in child && '/' !in child
    requires child != name
    ensures var fullTag := name + " " + key + "=\"" + value + "\"";
      var element := "<" + child + "></" + child + ">";
      var close := "</" + name + ">";
      ParseBracket("<" + fullTag + ">" + (element + close)) == Ok(XmlNode(name, [element], map[key := value]))
  {
    var fullTag := name + " " + key + "=\"" + value + "\"";
    var element := "<" + child + "></" + child + ">";
    OneParameterTag(name, key, value);
    ClosingAfterLeaf(child, name);
    LeafChild(child);
    NoGreaterThan(name, key, value);
    ParseSimpleElement(fullTag, name, element, "</" + name + ">", map[key := value], [element]);
  }
}
