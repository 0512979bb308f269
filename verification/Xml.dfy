/** The WAP-provisioning document: escaping, printing, and the parser that undoes both. */
module Xml {
  import opened ByteStrings

  // ---------------------------------------------------------------- escaping

  /** strings.ReplaceAll with a one-character pattern. */
  function ReplaceAll(s: string, c: char, entity: string): string {
    if s == "" then "" else (if s[0] == c then entity else [s[0]]) + ReplaceAll(s[1..], c, entity)
  }

  function EscapeChar(c: char): string {
    if c == '&' then "&amp;" else if c == '<' then "&lt;" else if c == '>' then "&gt;"
    else if c == '\"' then "&quot;" else [c]
  }

  /** Each character on its own. */
  function Escaped(s: string): string {
    if s == "" then "" else EscapeChar(s[0]) + Escaped(s[1..])
  }

  method EscapeXml(s: string) returns (value: string)
    ensures value == Escaped(s)
  {
    value := ReplaceAll(s, '&', "&amp;");
    value := ReplaceAll(value, '<', "&lt;");
    value := ReplaceAll(value, '>', "&gt;");
    value := ReplaceAll(value, '\"', "&quot;");
    FourReplacements(s);
  }

  lemma {:induction false} ReplaceAppend(s: string, t: string, c: char, entity: string)
    ensures ReplaceAll(s + t, c, entity) == ReplaceAll(s, c, entity) + ReplaceAll(t, c, entity)
  {
    if s == "" {
      assert s + t == t;
    } else {
      assert (s + t)[1..] == s[1..] + t;
      ReplaceAppend(s[1..], t, c, entity);
    }
  }

  lemma {:induction false} ReplaceNothing(s: string, c: char, entity: string)
    requires c !in s
    ensures ReplaceAll(s, c, entity) == s
  {
    if s != "" {
      ReplaceNothing(s[1..], c, entity);
    }
  }

  function Fourfold(s: string): string {
    ReplaceAll(ReplaceAll(ReplaceAll(ReplaceAll(s, '&', "&amp;"), '<', "&lt;"), '>', "&gt;"), '\"', "&quot;")
  }

  lemma FourfoldAppend(s: string, t: string)
    ensures Fourfold(s + t) == Fourfold(s) + Fourfold(t)
  {
    hide ReplaceAll;
    var s1, t1 := ReplaceAll(s, '&', "&amp;"), ReplaceAll(t, '&', "&amp;");
    var s2, t2 := ReplaceAll(s1, '<', "&lt;"), ReplaceAll(t1, '<', "&lt;");
    var s3, t3 := ReplaceAll(s2, '>', "&gt;"), ReplaceAll(t2, '>', "&gt;");
    ReplaceAppend(s, t, '&', "&amp;");
    ReplaceAppend(s1, t1, '<', "&lt;");
    ReplaceAppend(s2, t2, '>', "&gt;");
    ReplaceAppend(s3, t3, '\"', "&quot;");
  }

  lemma ReplaceOne(x: char, c: char, entity: string)
    ensures ReplaceAll([x], c, entity) == if x == c then entity else [x]
  {
    assert [x][1..] == "";
  }

  lemma FourfoldChar(c: char)
    ensures Fourfold([c]) == EscapeChar(c)
  {
    ReplaceOne(c, '&', "&amp;");
    ReplaceOne(c, '<', "&lt;");
    ReplaceOne(c, '>', "&gt;");
    ReplaceOne(c, '\"', "&quot;");
    hide ReplaceAll;
    var e := EscapeChar(c);
    if c == '&' {
      ReplaceNothing(e, '<', "&lt;");
    }
    if c == '&' || c == '<' {
      ReplaceNothing(e, '>', "&gt;");
    }
    if c == '&' || c == '<' || c == '>' {
      ReplaceNothing(e, '\"', "&quot;");
    }
  }

  /** The four replacements, ampersand first, amount to one pass over the characters. */
  lemma {:induction false} FourReplacements(s: string)
    ensures Fourfold(s) == Escaped(s)
  {
    if s != "" {
      hide Fourfold;
      hide EscapeChar;
      assert s == [s[0]] + s[1..];
      FourfoldAppend([s[0]], s[1..]);
      FourfoldChar(s[0]);
      FourReplacements(s[1..]);
    }
  }

  function Strip(s: string, prefix: string): Option<string> {
    if prefix <= s then Some(s[|prefix|..]) else None
  }

  lemma StripWhole(prefix: string, t: string)
    ensures Strip(prefix + t, prefix) == Some(t)
  {
  }

  /** Reads the entities back; a stray ampersand stands for itself. */
  function Unescaped(s: string): string
    decreases |s|
  {
    if s == "" then ""
    else if s[0] != '&' then [s[0]] + Unescaped(s[1..])
    else if "&amp;" <= s then "&" + Unescaped(s[5..])
    else if "&lt;" <= s then "<" + Unescaped(s[4..])
    else if "&gt;" <= s then ">" + Unescaped(s[4..])
    else if "&quot;" <= s then "\"" + Unescaped(s[6..])
    else "&" + Unescaped(s[1..])
  }

  lemma UnescapeFirst(c: char, t: string)
    ensures Unescaped(EscapeChar(c) + t) == [c] + Unescaped(t)
  {
    var s := EscapeChar(c) + t;
    if c == '&' {
      assert s[5..] == t;
    } else if c == '<' {
      assert s[1] == 'l' && s[4..] == t;
    } else if c == '>' {
      assert s[1] == 'g' && s[4..] == t;
    } else if c == '\"' {
      assert s[1] == 'q' && s[6..] == t;
    } else {
      assert s[1..] == t;
    }
  }

  lemma {:induction false} UnescapeEscaped(s: string)
    ensures Unescaped(Escaped(s)) == s
  {
    if s != "" {
      UnescapeFirst(s[0], Escaped(s[1..]));
      UnescapeEscaped(s[1..]);
    }
  }

  lemma {:induction false} NoQuotes(s: string)
    ensures '\"' !in Escaped(s)
  {
    if s != "" {
      NoQuotes(s[1..]);
    }
  }

  // ---------------------------------------------------------------- conforming readers

  /** What a conforming reader makes of an attribute value before it reads the entities:
      line ends become one newline (section 2.11 of XML 1.0), and tabs and newlines become
      spaces (section 3.3.3). */
  function Normalized(s: string): string {
    if s == "" then ""
    else if |s| >= 2 && s[0] == '\r' && s[1] == '\n' then " " + Normalized(s[2..])
    else [if IsLayout(s[0]) then ' ' else s[0]] + Normalized(s[1..])
  }

  predicate IsLayout(c: char) { c == '\t' || c == '\n' || c == '\r' }

  predicate NoLayout(s: string) { forall c :: c in s ==> !IsLayout(c) }

  lemma NormalizedPlain(c: char, t: string)
    requires c != '\r'
    ensures Normalized([c] + t) == [if IsLayout(c) then ' ' else c] + Normalized(t)
  {
    assert ([c] + t)[1..] == t;
  }

  lemma {:induction false} NormalizedPrefix(e: string, t: string)
    requires NoLayout(e)
    ensures Normalized(e + t) == e + Normalized(t)
  {
    if e == "" {
      assert e + t == t;
    } else {
      assert e[0] in e && forall c :: c in e[1..] ==> c in e;
      NormalizedPlain(e[0], e[1..] + t);
      NormalizedPrefix(e[1..], t);
      assert e + t == [e[0]] + (e[1..] + t);
      assert [e[0]] + (e[1..] + Normalized(t)) == e + Normalized(t);
    }
  }

  lemma EscapedFirst(c: char, t: string)
    ensures Escaped([c] + t) == EscapeChar(c) + Escaped(t)
  {
    assert ([c] + t)[1..] == t;
  }

  lemma EscapedStart(t: string)
    ensures t == "" <==> Escaped(t) == ""
    ensures t != "" ==> (t[0] == '\n' <==> Escaped(t)[0] == '\n')
  {
  }

  lemma PlainEscape(c: char)
    requires !IsLayout(c)
    ensures NoLayout(EscapeChar(c))
  {
  }

  lemma LineEnd(t: string)
    ensures Normalized("\r\n" + t) == " " + Normalized(t)
    ensures Escaped("\r\n" + t) == "\r\n" + Escaped(t)
  {
    LineEndNormalized(t);
    hide Normalized;
    hide Escaped;
    var u := "\n" + t;
    assert "\r\n" + t == "\r" + u;
    EscapedFirst('\r', u);
    EscapedFirst('\n', t);
    assert "\r" + ("\n" + Escaped(t)) == "\r\n" + Escaped(t);
  }

  lemma LineEndNormalized(t: string)
    ensures Normalized("\r\n" + t) == " " + Normalized(t)
  {
    var s := "\r\n" + t;
    assert s[2..] == t;
  }

  lemma OneLayout(c: char, t: string)
    requires IsLayout(c) && !(c == '\r' && t != "" && t[0] == '\n')
    ensures Normalized([c] + t) == " " + Normalized(t)
  {
    assert ([c] + t)[1..] == t;
  }

  lemma {:induction false} NormalizedEscaped(s: string)
    ensures Normalized(Escaped(s)) == Escaped(Normalized(s))
    decreases |s|
  {
    hide Normalized;
    hide Escaped;
    hide EscapeChar;
    if s == "" {
      assert Escaped("") == "" by { EscapedStart(""); }
      Empties();
    } else {
      var c, t := s[0], s[1..];
      assert s == [c] + t;
      EscapedStart(t);
      if !IsLayout(c) {
        NormalizedEscaped(t);
        EscapedFirst(c, t);
        PlainEscape(c);
        NormalizedPrefix(EscapeChar(c), Escaped(t));
        NormalizedPlain(c, t);
        EscapedFirst(c, Normalized(t));
      } else if c == '\r' && t != "" && t[0] == '\n' {
        var u := t[1..];
        assert s == "\r\n" + u;
        NormalizedEscaped(u);
        LineEnd(u);
        LineEnd(Escaped(u));
        SpaceEscaped(Normalized(u));
      } else {
        NormalizedEscaped(t);
        EscapedFirst(c, t);
        LayoutEscape(c);
        OneLayout(c, t);
        OneLayout(c, Escaped(t));
        SpaceEscaped(Normalized(t));
      }
    }
  }

  lemma Empties()
    ensures Normalized("") == ""
  {
  }

  lemma SpaceEscaped(t: string)
    ensures Escaped(" " + t) == " " + Escaped(t)
  {
    EscapedFirst(' ', t);
  }

  lemma LayoutEscape(c: char)
    requires IsLayout(c)
    ensures EscapeChar(c) == [c]
  {
  }

  lemma {:induction false} NormalizedLayout(s: string)
    ensures NoLayout(Normalized(s))
    ensures NoLayout(s) ==> Normalized(s) == s
    decreases |s|
  {
    if s != "" {
      assert s[0] in s && forall c :: c in s[1..] ==> c in s;
      NormalizedLayout(s[1..]);
      if |s| >= 2 {
        NormalizedLayout(s[2..]);
        assert s[1] in s;
      }
    }
  }

  /** The characters a document may hold (production Char, section 2.2 of XML 1.0);
      surrogates are not characters here. */
  predicate XmlChar(c: char) {
    IsLayout(c) || (' ' <= c && c != '\U{FFFE}' && c != '\U{FFFF}')
  }

  predicate XmlText(s: string) { forall c :: c in s ==> XmlChar(c) }

  /** What a conforming reader makes of an attribute value: it refuses a document with any
      other character in it. */
  function ConformingRead(s: string): Option<string> {
    if XmlText(s) then Some(Unescaped(Normalized(s))) else None
  }

  lemma EscapeText(c: char)
    ensures XmlText(EscapeChar(c)) <==> XmlChar(c)
  {
    assert !XmlChar(c) ==> c in EscapeChar(c);
  }

  lemma {:induction false} EscapedText(s: string)
    ensures XmlText(Escaped(s)) <==> XmlText(s)
  {
    hide XmlChar;
    hide EscapeChar;
    if s != "" {
      EscapedText(s[1..]);
      EscapeText(s[0]);
      TextAppend(EscapeChar(s[0]), Escaped(s[1..]));
      TextAppend([s[0]], s[1..]);
      assert s == [s[0]] + s[1..];
    }
  }

  lemma TextAppend(s: string, t: string)
    ensures XmlText(s + t) <==> XmlText(s) && XmlText(t)
  {
    hide XmlChar;
    assert forall c :: c in s || c in t ==> c in s + t;
  }

  /** A conforming reader gets an escaped string back if and only if it holds no tab, newline
      or carriage return, which are read as spaces, and no character it must refuse;
      escaping leaves all of these as they are. */
  lemma ConformingValue(s: string)
    ensures ConformingRead(Escaped(s)) == if XmlText(s) then Some(Normalized(s)) else None
    ensures ConformingRead(Escaped(s)) == Some(s) <==> NoLayout(s) && XmlText(s)
  {
    hide XmlText;
    EscapedText(s);
    NormalizedEscaped(s);
    UnescapeEscaped(Normalized(s));
    NormalizedLayout(s);
  }

  lemma ControlCharacterRefused()
    ensures NoLayout("\U{0001}") && ConformingRead(Escaped("\U{0001}")) == None
  {
    var s := "\U{0001}";
    assert s[0] in s && !XmlChar(s[0]);
    ConformingValue(s);
  }

  // ---------------------------------------------------------------- documents

  /** A parameter, or a characteristic and what is inside it. */
  datatype Node = Parm(name: string, value: string) | Characteristic(kind: string, children: seq<Node>)

  datatype Tag = Prolog | DocOpen | DocClose | Open(kind: string) | Close | ParmTag(name: string, value: string)

  const PROLOG := "<?xml version=\"1.0\"?>"
  const DOC_OPEN := "<wap-provisioningdoc version=\"1.1\">"
  const DOC_CLOSE := "</wap-provisioningdoc>"
  const CLOSE := "</characteristic>"
  const OPEN := "<characteristic type=\""
  const OPEN_END := "\">"
  const PARM := "<parm name=\""
  const PARM_VALUE := "\" value=\""
  const PARM_END := "\"/>"

  function TagText(t: Tag): string {
    match t
    case Prolog => PROLOG
    case DocOpen => DOC_OPEN
    case DocClose => DOC_CLOSE
    case Close => CLOSE
    case Open(kind) => OPEN + (kind + OPEN_END)
    case ParmTag(name, value) => PARM + (Escaped(name) + (PARM_VALUE + (Escaped(value) + PARM_END)))
  }

  /** A tag on a line of its own, indented. */
  datatype Line = Line(indent: string, tag: Tag)

  function LineText(l: Line): string { l.indent + TagText(l.tag) }

  function NodeLines(n: Node, indent: string): seq<Line>
    decreases n
  {
    match n
    case Parm(name, value) => [Line(indent, ParmTag(name, value))]
    case Characteristic(kind, children) =>
      [Line(indent, Open(kind))] + NodesLines(children, indent + "  ") + [Line(indent, Close)]
  }

  function NodesLines(ns: seq<Node>, indent: string): seq<Line>
    decreases ns
  {
    if ns == [] then [] else NodeLines(ns[0], indent) + NodesLines(ns[1..], indent)
  }

  function DocumentLines(ns: seq<Node>): seq<Line> {
    [Line("", Prolog), Line("", DocOpen)] + NodesLines(ns, "  ") + [Line("", DocClose)]
  }

  /** strings.Join with newlines. */
  function Joined(lines: seq<Line>): string {
    if lines == [] then ""
    else if |lines| == 1 then LineText(lines[0])
    else LineText(lines[0]) + ("\n" + Joined(lines[1..]))
  }

  // ---------------------------------------------------------------- reading tags

  function UntilQuote(s: string): Option<(string, string)> {
    if s == "" then None
    else if s[0] == '\"' then Some(("", s))
    else
      match UntilQuote(s[1..])
      case Some((before, rest)) => Some(([s[0]] + before, rest))
      case None => None
  }

  lemma {:induction false} QuoteEnds(s: string, t: string)
    requires '\"' !in s && t != "" && t[0] == '\"'
    ensures UntilQuote(s + t) == Some((s, t))
  {
    if s == "" {
      assert s + t == t;
    } else {
      assert (s + t)[1..] == s[1..] + t;
      QuoteEnds(s[1..], t);
      assert [s[0]] + s[1..] == s;
    }
  }

  function Literal(s: string, text: string, t: Tag): Option<(Tag, string)> {
    match Strip(s, text) case Some(rest) => Some((t, rest)) case None => None
  }

  function ReadOpen(s: string): Option<(Tag, string)> {
    match UntilQuote(s)
    case Some((kind, t)) => Literal(t, OPEN_END, Open(kind))
    case None => None
  }

  function ReadParm(s: string): Option<(Tag, string)> {
    match UntilQuote(s)
    case Some((name, t)) =>
      (match Strip(t, PARM_VALUE)
       case Some(u) =>
         (match UntilQuote(u)
          case Some((value, w)) => Literal(w, PARM_END, ParmTag(Unescaped(name), Unescaped(value)))
          case None => None)
       case None => None)
    case None => None
  }

  /** One tag at the start of the text, told apart by its second and third characters. */
  function ReadTag(s: string): Option<(Tag, string)> {
    if |s| < 3 then None
    else if s[1] == '?' then Literal(s, PROLOG, Prolog)
    else if s[1] == 'w' then Literal(s, DOC_OPEN, DocOpen)
    else if s[1] == '/' && s[2] == 'w' then Literal(s, DOC_CLOSE, DocClose)
    else if s[1] == '/' then Literal(s, CLOSE, Close)
    else if s[1] == 'c' then
      (match Strip(s, OPEN) case Some(t) => ReadOpen(t) case None => None)
    else
      (match Strip(s, PARM) case Some(t) => ReadParm(t) case None => None)
  }

  lemma LiteralReads(text: string, rest: string, t: Tag)
    ensures Literal(text + rest, text, t) == Some((t, rest))
  {
    StripWhole(text, rest);
  }

  lemma OpenReads(kind: string, rest: string)
    requires '\"' !in kind
    ensures ReadOpen(kind + OPEN_END + rest) == Some((Open(kind), rest))
  {
    var t := OPEN_END + rest;
    assert kind + OPEN_END + rest == kind + t;
    assert t[0] == '\"';
    QuoteEnds(kind, t);
    LiteralReads(OPEN_END, rest, Open(kind));
  }

  lemma ParmReads(name: string, value: string, rest: string)
    ensures ReadParm(Escaped(name) + (PARM_VALUE + (Escaped(value) + (PARM_END + rest))))
      == Some((ParmTag(name, value), rest))
  {
    hide Escaped;
    hide Unescaped;
    var w := PARM_END + rest;
    var u := Escaped(value) + w;
    var t := PARM_VALUE + u;
    assert w[0] == '\"' && t[0] == '\"';
    NoQuotes(name);
    NoQuotes(value);
    QuoteEnds(Escaped(name), t);
    StripWhole(PARM_VALUE, u);
    QuoteEnds(Escaped(value), w);
    UnescapeEscaped(name);
    UnescapeEscaped(value);
    LiteralReads(PARM_END, rest, ParmTag(name, value));
  }

  predicate Sound(t: Tag) { t.Open? ==> '\"' !in t.kind }

  lemma OpenTagReads(kind: string, rest: string)
    requires '\"' !in kind
    ensures ReadTag(TagText(Open(kind)) + rest) == Some((Open(kind), rest))
  {
    hide ReadOpen;
    hide ReadParm;
    hide Strip;
    assert TagText(Open(kind)) + rest == OPEN + (kind + OPEN_END + rest);
    StripWhole(OPEN, kind + OPEN_END + rest);
    OpenReads(kind, rest);
  }

  lemma ParmTagReads(name: string, value: string, rest: string)
    ensures ReadTag(TagText(ParmTag(name, value)) + rest) == Some((ParmTag(name, value), rest))
  {
    hide ReadOpen;
    hide ReadParm;
    hide Escaped;
    hide Strip;
    var tail := Escaped(name) + (PARM_VALUE + (Escaped(value) + (PARM_END + rest)));
    assert TagText(ParmTag(name, value)) + rest == PARM + tail;
    StripWhole(PARM, tail);
    ParmReads(name, value, rest);
  }

  lemma FixedTagReads(t: Tag, rest: string)
    requires !t.Open? && !t.ParmTag?
    ensures ReadTag(TagText(t) + rest) == Some((t, rest))
  {
    hide ReadOpen;
    hide ReadParm;
    hide Literal;
    hide Strip;
    match t
    case Prolog => LiteralReads(PROLOG, rest, t);
    case DocOpen => LiteralReads(DOC_OPEN, rest, t);
    case DocClose => LiteralReads(DOC_CLOSE, rest, t);
    case Close => LiteralReads(CLOSE, rest, t);
  }

  lemma TagReads(t: Tag, rest: string)
    requires Sound(t)
    ensures ReadTag(TagText(t) + rest) == Some((t, rest))
  {
    hide ReadTag;
    hide TagText;
    if t.Open? {
      OpenTagReads(t.kind, rest);
    } else if t.ParmTag? {
      ParmTagReads(t.name, t.value, rest);
    } else {
      FixedTagReads(t, rest);
    }
  }

  lemma TagStarts(t: Tag)
    ensures |TagText(t)| > 0 && TagText(t)[0] == '<'
  {
    hide Escaped;
  }

  /** All tags of a text, blanks and newlines between them skipped. */
  function Tags(s: string): Option<seq<Tag>>
    decreases |s|
  {
    if s == "" then Some([])
    else if s[0] == ' ' || s[0] == '\n' then Tags(s[1..])
    else
      match ReadTag(s)
      case None => None
      case Some((t, rest)) =>
        if |rest| >= |s| then None
        else
          match Tags(rest) case Some(ts) => Some([t] + ts) case None => None
  }

  predicate Blank(s: string) { forall c :: c in s ==> c == ' ' || c == '\n' }

  lemma {:induction false} BlanksSkipped(s: string, t: string)
    requires Blank(s)
    ensures Tags(s + t) == Tags(t)
  {
    hide ReadTag;
    if s == "" {
      assert s + t == t;
    } else {
      assert s[0] in s && forall c :: c in s[1..] ==> c in s;
      assert (s + t)[1..] == s[1..] + t;
      BlanksSkipped(s[1..], t);
    }
  }

  predicate SoundLines(lines: seq<Line>) {
    forall l :: l in lines ==> Blank(l.indent) && Sound(l.tag)
  }

  function TagsOf(lines: seq<Line>): seq<Tag> {
    if lines == [] then [] else [lines[0].tag] + TagsOf(lines[1..])
  }

  lemma LineReads(l: Line, rest: string)
    requires Blank(l.indent) && Sound(l.tag)
    ensures Tags(LineText(l) + rest) == match Tags(rest) case Some(ts) => Some([l.tag] + ts) case None => None
  {
    hide ReadTag;
    hide TagText;
    hide Blank;
    var s := TagText(l.tag) + rest;
    assert LineText(l) + rest == l.indent + s;
    BlanksSkipped(l.indent, s);
    TagReads(l.tag, rest);
    TagStarts(l.tag);
  }

  lemma {:induction false} LinesRead(lines: seq<Line>)
    requires SoundLines(lines)
    ensures Tags(Joined(lines)) == Some(TagsOf(lines))
  {
    hide Blank;
    hide Sound;
    hide LineText;
    hide ReadTag;
    if lines != [] {
      assert lines[0] in lines;
      if |lines| == 1 {
        assert lines[1..] == [];
        LineReads(lines[0], "");
        assert LineText(lines[0]) + "" == LineText(lines[0]);
      } else {
        var rest := Joined(lines[1..]);
        LinesRead(lines[1..]);
        LineReads(lines[0], "\n" + rest);
        assert ("\n" + rest)[1..] == rest;
      }
    }
  }

  // ---------------------------------------------------------------- reading nodes

  /** Nodes up to a closing tag, with the tags from there on. */
  function Nodes(ts: seq<Tag>): (r: Option<(seq<Node>, seq<Tag>)>)
    ensures r.Some? ==> |r.value.1| <= |ts|
    decreases |ts|
  {
    if ts == [] || ts[0].Close? || ts[0].DocClose? then Some(([], ts))
    else if ts[0].ParmTag? then Consed(Parm(ts[0].name, ts[0].value), Nodes(ts[1..]))
    else if ts[0].Open? then
      match Nodes(ts[1..])
      case Some((children, rest)) =>
        if rest == [] || !rest[0].Close? then None
        else Consed(Characteristic(ts[0].kind, children), Nodes(rest[1..]))
      case None => None
    else None
  }

  function Consed(n: Node, r: Option<(seq<Node>, seq<Tag>)>): Option<(seq<Node>, seq<Tag>)> {
    match r case Some((ns, rest)) => Some(([n] + ns, rest)) case None => None
  }

  function ParseDocument(s: string): Option<seq<Node>> {
    match Tags(s)
    case Some(ts) =>
      if |ts| < 3 || ts[0] != Prolog || ts[1] != DocOpen then None
      else
        (match Nodes(ts[2..])
         case Some((ns, rest)) => if rest == [DocClose] then Some(ns) else None
         case None => None)
    case None => None
  }

  lemma {:induction false} TagsAppend(a: seq<Line>, b: seq<Line>)
    ensures TagsOf(a + b) == TagsOf(a) + TagsOf(b)
  {
    if a == [] {
      assert a + b == b;
    } else {
      assert (a + b)[1..] == a[1..] + b;
      TagsAppend(a[1..], b);
    }
  }

  predicate Stops(rest: seq<Tag>) { rest == [] || rest[0].Close? || rest[0].DocClose? }

  lemma OneTag(l: Line)
    ensures TagsOf([l]) == [l.tag]
  {
    assert [l][1..] == [];
  }

  lemma {:induction false} NodesRead(ns: seq<Node>, indent: string, rest: seq<Tag>)
    requires Stops(rest)
    ensures Nodes(TagsOf(NodesLines(ns, indent)) + rest) == Some((ns, rest))
    decreases ns
  {
    if ns == [] {
      assert TagsOf([]) + rest == rest;
    } else {
      var first, others := NodeLines(ns[0], indent), NodesLines(ns[1..], indent);
      var tail := TagsOf(others) + rest;
      TagsAppend(first, others);
      assert TagsOf(first + others) + rest == TagsOf(first) + tail;
      NodesRead(ns[1..], indent, rest);
      assert [ns[0]] + ns[1..] == ns;
      match ns[0]
      case Parm(name, value) =>
        OneTag(Line(indent, ParmTag(name, value)));
        assert first == [Line(indent, ParmTag(name, value))];
        ParmFirst(name, value, tail);
        assert Nodes(TagsOf(first) + tail) == Consed(ns[0], Some((ns[1..], rest)));
      case Characteristic(kind, children) =>
        NodesRead(children, indent + "  ", [Close] + tail);
        CharacteristicTags(kind, children, indent);
        CharacteristicFirst(kind, children, TagsOf(NodesLines(children, indent + "  ")), tail);
    }
  }

  lemma ParmFirst(name: string, value: string, tail: seq<Tag>)
    ensures Nodes([ParmTag(name, value)] + tail) == Consed(Parm(name, value), Nodes(tail))
  {
    assert ([ParmTag(name, value)] + tail)[1..] == tail;
  }

  lemma CharacteristicTags(kind: string, children: seq<Node>, indent: string)
    ensures TagsOf(NodeLines(Characteristic(kind, children), indent))
      == [Open(kind)] + TagsOf(NodesLines(children, indent + "  ")) + [Close]
  {
    var open, inner, close := [Line(indent, Open(kind))], NodesLines(children, indent + "  "), [Line(indent, Close)];
    TagsAppend(open, inner);
    TagsAppend(open + inner, close);
    OneTag(open[0]);
    OneTag(close[0]);
  }

  lemma CharacteristicFirst(kind: string, children: seq<Node>, inner: seq<Tag>, tail: seq<Tag>)
    requires Nodes(inner + ([Close] + tail)) == Some((children, [Close] + tail))
    ensures Nodes([Open(kind)] + inner + [Close] + tail) == Consed(Characteristic(kind, children), Nodes(tail))
  {
    var ts := [Open(kind)] + inner + [Close] + tail;
    assert ts[1..] == inner + ([Close] + tail);
    assert ([Close] + tail)[1..] == tail;
  }

  /** Kinds without quotes, at every depth. */
  predicate PlainNodes(ns: seq<Node>)
    decreases ns
  {
    forall n :: n in ns ==> (n.Characteristic? ==> '\"' !in n.kind && PlainNodes(n.children))
  }

  lemma {:induction false} NodesSound(ns: seq<Node>, indent: string)
    requires PlainNodes(ns) && Blank(indent)
    ensures SoundLines(NodesLines(ns, indent))
    decreases ns
  {
    if ns != [] {
      assert ns[0] in ns;
      NodesSound(ns[1..], indent);
      if ns[0].Characteristic? {
        NodesSound(ns[0].children, indent + "  ");
      }
    }
  }

  /** Printing a document and parsing it back gives the document. */
  lemma PrintedParses(ns: seq<Node>)
    requires PlainNodes(ns)
    ensures ParseDocument(Joined(DocumentLines(ns))) == Some(ns)
  {
    hide PlainNodes;
    hide Joined;
    hide Tags;
    hide Nodes;
    var ts := DocumentTags(ns);
    NodesSound(ns, "  ");
    assert SoundLines(DocumentLines(ns));
    LinesRead(DocumentLines(ns));
    NodesRead(ns, "  ", [DocClose]);
  }

  lemma DocumentTags(ns: seq<Node>) returns (ts: seq<Tag>)
    ensures ts == TagsOf(DocumentLines(ns)) && |ts| >= 3 && ts[0] == Prolog && ts[1] == DocOpen
    ensures ts[2..] == TagsOf(NodesLines(ns, "  ")) + [DocClose]
  {
    hide NodesLines;
    var head, body, end := [Line("", Prolog), Line("", DocOpen)], NodesLines(ns, "  "), [Line("", DocClose)];
    TagsAppend(head, body);
    TagsAppend(head + body, end);
    OneTag(end[0]);
    assert head[1..] == [Line("", DocOpen)];
    OneTag(head[1]);
    ts := [Prolog, DocOpen] + TagsOf(body) + [DocClose];
  }

  // ---------------------------------------------------------------- the response

  datatype AddressConfig = AddressConfig(addrType: string, addr: string)

  /** One application; the extra parameters are listed in the order the map is walked. */
  datatype ApplicationConfig = ApplicationConfig(
    appId: string, entitlementStatus: int, addrStatus: Option<int>, tcStatus: Option<int>, provStatus: Option<int>,
    serviceFlowUrl: string, extraParams: seq<(string, string)>, addresses: seq<AddressConfig>)

  datatype ServiceResponse = ServiceResponse(
    version: string, validity: int, token: string, applications: seq<ApplicationConfig>)

  /** strconv.Itoa */
  function Itoa(n: int): string
    decreases n < 0, if n < 0 then -n else n
  {
    if n < 0 then "-" + Itoa(-n)
    else if n < 10 then [Digit(n)]
    else Itoa(n / 10) + [Digit(n % 10)]
  }

  function Digit(d: nat): char
    requires d < 10
  {
    "0123456789"[d]
  }

  function Optional(name: string, status: Option<int>): seq<Node> {
    match status case Some(n) => [Parm(name, Itoa(n))] case None => []
  }

  function Extras(params: seq<(string, string)>): seq<Node> {
    if params == [] then [] else [Parm(params[0].0, params[0].1)] + Extras(params[1..])
  }

  function AddressNode(a: AddressConfig): Node {
    Characteristic("ADDR", [Parm("AddrType", a.addrType), Parm("Addr", a.addr)])
  }

  function Addresses(addresses: seq<AddressConfig>): seq<Node> {
    if addresses == [] then [] else [AddressNode(addresses[0])] + Addresses(addresses[1..])
  }

  /** What an application's characteristic holds. */
  function ApplicationChildren(a: ApplicationConfig): seq<Node> {
    [Parm("AppID", a.appId), Parm("EntitlementStatus", Itoa(a.entitlementStatus))]
    + Optional("AddrStatus", a.addrStatus) + Optional("TC_Status", a.tcStatus) + Optional("ProvStatus", a.provStatus)
    + (if a.serviceFlowUrl != "" then [Parm("ServiceFlow_URL", a.serviceFlowUrl)] else [])
    + Extras(a.extraParams) + Addresses(a.addresses)
  }

  function ApplicationNodes(apps: seq<ApplicationConfig>): seq<Node> {
    if apps == [] then []
    else [Characteristic("APPLICATION", ApplicationChildren(apps[0]))] + ApplicationNodes(apps[1..])
  }

  function DocumentOf(r: ServiceResponse): seq<Node> {
    [Characteristic("VERS", [Parm("version", r.version), Parm("validity", Itoa(r.validity))]),
     Characteristic("TOKEN", [Parm("token", r.token)])]
    + ApplicationNodes(r.applications)
  }

  function Texts(lines: seq<Line>): seq<string> {
    if lines == [] then [] else [LineText(lines[0])] + Texts(lines[1..])
  }

  lemma {:induction false} TextsAppend(a: seq<Line>, b: seq<Line>)
    ensures Texts(a + b) == Texts(a) + Texts(b)
  {
    hide LineText;
    if a == [] {
      assert a + b == b;
    } else {
      assert (a + b)[1..] == a[1..] + b;
      TextsAppend(a[1..], b);
    }
  }

  lemma {:induction false} LinesAppend(a: seq<Node>, b: seq<Node>, indent: string)
    ensures NodesLines(a + b, indent) == NodesLines(a, indent) + NodesLines(b, indent)
  {
    hide NodeLines;
    if a == [] {
      assert a + b == b;
    } else {
      assert (a + b)[1..] == a[1..] + b;
      LinesAppend(a[1..], b, indent);
    }
  }

  method Parameter(name: string, value: string, indent: string) returns (line: string)
    ensures line == LineText(Line(indent, ParmTag(name, value)))
  {
    hide Escaped;
    var n := EscapeXml(name);
    var v := EscapeXml(value);
    line := indent + (PARM + (n + (PARM_VALUE + (v + PARM_END))));
  }

  /** The lines of an application's characteristic, all but the closing one. */
  function Unclosed(children: seq<Node>): seq<string> {
    Texts([Line("  ", Open("APPLICATION"))] + NodesLines(children, "    "))
  }

  lemma UnclosedAppend(children: seq<Node>, more: seq<Node>)
    ensures Unclosed(children + more) == Unclosed(children) + Texts(NodesLines(more, "    "))
  {
    hide LineText;
    hide Texts;
    hide NodesLines;
    var open := [Line("  ", Open("APPLICATION"))];
    LinesAppend(children, more, "    ");
    assert open + (NodesLines(children, "    ") + NodesLines(more, "    "))
      == open + NodesLines(children, "    ") + NodesLines(more, "    ");
    TextsAppend(open + NodesLines(children, "    "), NodesLines(more, "    "));
  }

  lemma OneParm(name: string, value: string, indent: string)
    ensures Texts(NodesLines([Parm(name, value)], indent)) == [LineText(Line(indent, ParmTag(name, value)))]
  {
    hide LineText;
    var ns := [Parm(name, value)];
    assert ns[1..] == [];
    assert NodesLines(ns, indent) == [Line(indent, ParmTag(name, value))];
    OneText(Line(indent, ParmTag(name, value)));
  }

  lemma OneText(l: Line)
    ensures Texts([l]) == [LineText(l)]
  {
    hide LineText;
    assert [l][1..] == [];
  }

  method AddParm(lines: seq<string>, ghost children: seq<Node>, name: string, value: string) returns (r: seq<string>)
    requires lines == Unclosed(children)
    ensures r == Unclosed(children + [Parm(name, value)])
  {
    hide LineText;
    hide Unclosed;
    var line := Parameter(name, value, "    ");
    UnclosedAppend(children, [Parm(name, value)]);
    OneParm(name, value, "    ");
    r := lines + [line];
  }

  method AddOptional(lines: seq<string>, ghost children: seq<Node>, name: string, status: Option<int>)
    returns (r: seq<string>)
    requires lines == Unclosed(children)
    ensures r == Unclosed(children + Optional(name, status))
  {
    hide Unclosed;
    if status.Some? {
      r := AddParm(lines, children, name, Itoa(status.value));
    } else {
      assert children + [] == children;
      r := lines;
    }
  }

  method AddExtras(lines: seq<string>, ghost children: seq<Node>, params: seq<(string, string)>)
    returns (r: seq<string>)
    requires lines == Unclosed(children)
    ensures r == Unclosed(children + Extras(params))
  {
    hide Unclosed;
    r := lines;
    ghost var done: seq<Node> := [];
    assert children + [] == children && params[0..] == params;
    for i := 0 to |params|
      invariant r == Unclosed(children + done) && Extras(params) == done + Extras(params[i..])
    {
      r := AddParm(r, children + done, params[i].0, params[i].1);
      var one := Parm(params[i].0, params[i].1);
      assert params[i..][1..] == params[i + 1..];
      assert children + done + [one] == children + (done + [one]);
      assert done + ([one] + Extras(params[i + 1..])) == (done + [one]) + Extras(params[i + 1..]);
      done := done + [one];
    }
    assert params[|params|..] == [] && done + [] == done;
  }

  method AddressLines(a: AddressConfig) returns (r: seq<string>)
    ensures r == Texts(NodesLines([AddressNode(a)], "    "))
  {
    hide LineText;
    var first := Parameter("AddrType", a.addrType, "      ");
    var second := Parameter("Addr", a.addr, "      ");
    var open, close := Line("    ", Open("ADDR")), Line("    ", Close);
    r := [LineText(open), first, second, LineText(close)];
    var inner := [Line("      ", ParmTag("AddrType", a.addrType)), Line("      ", ParmTag("Addr", a.addr))];
    AddressIs(a, inner);
    TextsAppend([open] + inner, [close]);
    TextsAppend([open], inner);
    TextsAppend([inner[0]], [inner[1]]);
    assert [inner[0]] + [inner[1]] == inner;
    OneText(open);
    OneText(inner[0]);
    OneText(inner[1]);
    OneText(close);
  }

  lemma AddressIs(a: AddressConfig, inner: seq<Line>)
    requires inner == [Line("      ", ParmTag("AddrType", a.addrType)), Line("      ", ParmTag("Addr", a.addr))]
    ensures NodesLines([AddressNode(a)], "    ") == [Line("    ", Open("ADDR"))] + inner + [Line("    ", Close)]
  {
    var x, y := Parm("AddrType", a.addrType), Parm("Addr", a.addr);
    assert "    " + "  " == "      ";
    assert [x, y][1..] == [y] && [y][1..] == [];
    assert NodesLines([y], "      ") == [inner[1]];
    assert NodesLines([x, y], "      ") == inner;
    assert [AddressNode(a)][1..] == [];
  }

  method AddAddresses(lines: seq<string>, ghost children: seq<Node>, addresses: seq<AddressConfig>)
    returns (r: seq<string>)
    requires lines == Unclosed(children)
    ensures r == Unclosed(children + Addresses(addresses))
  {
    hide Unclosed;
    hide AddressNode;
    hide NodesLines;
    hide Texts;
    r := lines;
    ghost var done: seq<Node> := [];
    assert children + [] == children && addresses[0..] == addresses;
    for i := 0 to |addresses|
      invariant r == Unclosed(children + done) && Addresses(addresses) == done + Addresses(addresses[i..])
    {
      var more := AddressLines(addresses[i]);
      var one := AddressNode(addresses[i]);
      UnclosedAppend(children + done, [one]);
      r := r + more;
      assert addresses[i..][1..] == addresses[i + 1..];
      assert children + done + [one] == children + (done + [one]);
      assert done + ([one] + Addresses(addresses[i + 1..])) == (done + [one]) + Addresses(addresses[i + 1..]);
      done := done + [one];
    }
    assert addresses[|addresses|..] == [] && done + [] == done;
  }

  method BuildApplicationCharacteristic(a: ApplicationConfig) returns (lines: seq<string>)
    ensures lines == Texts(NodeLines(Characteristic("APPLICATION", ApplicationChildren(a)), "  "))
  {
    hide Unclosed;
    hide LineText;
    hide Extras;
    hide Addresses;
    hide Optional;
    ghost var n0: seq<Node> := [];
    lines := [LineText(Line("  ", Open("APPLICATION")))];
    NoChildren();
    lines := AddParm(lines, n0, "AppID", a.appId);
    ghost var n1 := n0 + [Parm("AppID", a.appId)];
    lines := AddParm(lines, n1, "EntitlementStatus", Itoa(a.entitlementStatus));
    ghost var n2 := n1 + [Parm("EntitlementStatus", Itoa(a.entitlementStatus))];
    lines := AddOptional(lines, n2, "AddrStatus", a.addrStatus);
    ghost var n3 := n2 + Optional("AddrStatus", a.addrStatus);
    lines := AddOptional(lines, n3, "TC_Status", a.tcStatus);
    ghost var n4 := n3 + Optional("TC_Status", a.tcStatus);
    lines := AddOptional(lines, n4, "ProvStatus", a.provStatus);
    ghost var n5 := n4 + Optional("ProvStatus", a.provStatus);
    ghost var n6 := n5;
    if a.serviceFlowUrl != "" {
      lines := AddParm(lines, n5, "ServiceFlow_URL", a.serviceFlowUrl);
      n6 := n5 + [Parm("ServiceFlow_URL", a.serviceFlowUrl)];
    }
    lines := AddExtras(lines, n6, a.extraParams);
    ghost var n7 := n6 + Extras(a.extraParams);
    lines := AddAddresses(lines, n7, a.addresses);
    ghost var n8 := n7 + Addresses(a.addresses);
    lines := lines + [LineText(Line("  ", Close))];
    assert n2 == [Parm("AppID", a.appId), Parm("EntitlementStatus", Itoa(a.entitlementStatus))];
    assert n8 == ApplicationChildren(a);
    Closing(n8);
  }

  lemma NoChildren()
    ensures Unclosed([]) == [LineText(Line("  ", Open("APPLICATION")))]
  {
    hide LineText;
    assert [Line("  ", Open("APPLICATION"))] + [] == [Line("  ", Open("APPLICATION"))];
    OneText(Line("  ", Open("APPLICATION")));
  }

  lemma Closing(children: seq<Node>)
    ensures Unclosed(children) + [LineText(Line("  ", Close))]
      == Texts(NodeLines(Characteristic("APPLICATION", children), "  "))
  {
    hide LineText;
    assert "  " + "  " == "    ";
    TextsAppend([Line("  ", Open("APPLICATION"))] + NodesLines(children, "    "), [Line("  ", Close)]);
    OneText(Line("  ", Close));
  }

  function Join(texts: seq<string>): string {
    if texts == [] then "" else if |texts| == 1 then texts[0] else texts[0] + ("\n" + Join(texts[1..]))
  }

  lemma {:induction false} JoinTexts(lines: seq<Line>)
    ensures Join(Texts(lines)) == Joined(lines) && |Texts(lines)| == |lines|
  {
    hide LineText;
    if lines != [] {
      JoinTexts(lines[1..]);
      assert Texts(lines)[1..] == Texts(lines[1..]);
    }
  }

  /** A characteristic that holds only parameters. */
  method SimpleCharacteristic(kind: string, params: seq<(string, string)>) returns (lines: seq<string>)
    ensures lines == Texts(NodeLines(Characteristic(kind, Extras(params)), "  "))
  {
    hide LineText;
    var open, close := Line("  ", Open(kind)), Line("  ", Close);
    lines := [LineText(open)];
    ghost var inner: seq<Line> := [];
    OneText(open);
    assert [open] + inner == [open] && params[0..] == params;
    for i := 0 to |params|
      invariant lines == Texts([open] + inner)
      invariant NodesLines(Extras(params), "    ") == inner + NodesLines(Extras(params[i..]), "    ")
    {
      var (name, value) := params[i];
      var line := Parameter(name, value, "    ");
      var tag := Line("    ", ParmTag(name, value));
      TextsAppend([open] + inner, [tag]);
      OneText(tag);
      FirstExtra(params[i..]);
      assert params[i..][1..] == params[i + 1..];
      assert inner + ([tag] + NodesLines(Extras(params[i + 1..]), "    "))
        == (inner + [tag]) + NodesLines(Extras(params[i + 1..]), "    ");
      assert [open] + inner + [tag] == [open] + (inner + [tag]);
      inner := inner + [tag];
      lines := lines + [line];
    }
    assert params[|params|..] == [] && inner + [] == inner;
    TextsAppend([open] + inner, [close]);
    OneText(close);
    assert "  " + "  " == "    ";
    lines := lines + [LineText(close)];
  }

  lemma FirstExtra(params: seq<(string, string)>)
    requires params != []
    ensures NodesLines(Extras(params), "    ")
      == [Line("    ", ParmTag(params[0].0, params[0].1))] + NodesLines(Extras(params[1..]), "    ")
  {
    var n := Parm(params[0].0, params[0].1);
    assert ([n] + Extras(params[1..]))[1..] == Extras(params[1..]);
  }

  method BuildXmlResponse(r: ServiceResponse) returns (text: string)
    ensures text == Joined(DocumentLines(DocumentOf(r)))
    ensures ParseDocument(text) == Some(DocumentOf(r))
  {
    hide Unclosed;
    hide LineText;
    hide NodeLines;
    hide ApplicationChildren;
    hide Joined;
    hide Join;
    hide ParseDocument;
    hide PlainNodes;
    var head := [Line("", Prolog), Line("", DocOpen)];
    ghost var nodes: seq<Node> := [];
    var lines := [LineText(head[0]), LineText(head[1])];
    HeadTexts();
    var vers := SimpleCharacteristic("VERS", [("version", r.version), ("validity", Itoa(r.validity))]);
    var versions := Extras([("version", r.version), ("validity", Itoa(r.validity))]);
    lines, nodes := Extend(lines, nodes, Characteristic("VERS", versions), vers);
    var token := SimpleCharacteristic("TOKEN", [("token", r.token)]);
    lines, nodes := Extend(lines, nodes, Characteristic("TOKEN", Extras([("token", r.token)])), token);
    FrontMatter(r);
    ghost var front := nodes;
    assert r.applications[0..] == r.applications && front + ApplicationNodes(r.applications) == DocumentOf(r);
    for i := 0 to |r.applications|
      invariant lines == Started(nodes)
      invariant DocumentOf(r) == nodes + ApplicationNodes(r.applications[i..])
    {
      var app := BuildApplicationCharacteristic(r.applications[i]);
      var node := Characteristic("APPLICATION", ApplicationChildren(r.applications[i]));
      assert r.applications[i..][1..] == r.applications[i + 1..];
      assert nodes + ([node] + ApplicationNodes(r.applications[i + 1..]))
        == (nodes + [node]) + ApplicationNodes(r.applications[i + 1..]);
      lines, nodes := Extend(lines, nodes, node, app);
    }
    assert r.applications[|r.applications|..] == [] && nodes + [] == nodes;
    lines := lines + [LineText(Line("", DocClose))];
    Finished(nodes);
    JoinTexts(DocumentLines(nodes));
    text := Join(lines);
    DocumentPlain(r);
    PrintedParses(DocumentOf(r));
  }

  /** The document's lines up to some of its nodes. */
  function Started(nodes: seq<Node>): seq<string> {
    Texts([Line("", Prolog), Line("", DocOpen)] + NodesLines(nodes, "  "))
  }

  lemma HeadTexts()
    ensures Started([]) == [LineText(Line("", Prolog)), LineText(Line("", DocOpen))]
  {
    hide LineText;
    var a, b := Line("", Prolog), Line("", DocOpen);
    assert [a, b] + [] == [a] + [b];
    TextsAppend([a], [b]);
    OneText(a);
    OneText(b);
  }

  method Extend(lines: seq<string>, ghost nodes: seq<Node>, ghost node: Node, more: seq<string>)
    returns (r: seq<string>, ghost all: seq<Node>)
    requires lines == Started(nodes) && more == Texts(NodeLines(node, "  "))
    ensures r == Started(nodes + [node]) && all == nodes + [node]
  {
    hide LineText;
    hide NodeLines;
    var head := [Line("", Prolog), Line("", DocOpen)];
    LinesAppend(nodes, [node], "  ");
    assert [node][1..] == [];
    assert NodesLines([node], "  ") == NodeLines(node, "  ") + [];
    assert NodesLines([node], "  ") == NodeLines(node, "  ");
    assert head + (NodesLines(nodes, "  ") + NodeLines(node, "  "))
      == head + NodesLines(nodes, "  ") + NodeLines(node, "  ");
    TextsAppend(head + NodesLines(nodes, "  "), NodeLines(node, "  "));
    r, all := lines + more, nodes + [node];
  }

  lemma FrontMatter(r: ServiceResponse)
    ensures [] + [Characteristic("VERS", Extras([("version", r.version), ("validity", Itoa(r.validity))]))]
      + [Characteristic("TOKEN", Extras([("token", r.token)]))] + ApplicationNodes(r.applications) == DocumentOf(r)
  {
    var two := [("version", r.version), ("validity", Itoa(r.validity))];
    assert two[1..] == [("validity", Itoa(r.validity))] && two[1..][1..] == [];
    assert [("token", r.token)][1..] == [];
    assert Extras(two[1..]) == [Parm("validity", Itoa(r.validity))] by {
      assert Extras(two[1..][1..]) == [];
    }
    assert Extras(two) == [Parm("version", r.version), Parm("validity", Itoa(r.validity))];
    assert Extras([("token", r.token)]) == [Parm("token", r.token)];
  }

  lemma Finished(nodes: seq<Node>)
    ensures Started(nodes) + [LineText(Line("", DocClose))] == Texts(DocumentLines(nodes))
  {
    hide LineText;
    TextsAppend([Line("", Prolog), Line("", DocOpen)] + NodesLines(nodes, "  "), [Line("", DocClose)]);
    OneText(Line("", DocClose));
  }

  lemma {:induction false} ExtrasPlain(params: seq<(string, string)>)
    ensures forall n :: n in Extras(params) ==> n.Parm?
  {
    if params != [] {
      ExtrasPlain(params[1..]);
    }
  }

  lemma {:induction false} AddressesPlain(addresses: seq<AddressConfig>)
    ensures PlainNodes(Addresses(addresses))
  {
    if addresses != [] {
      AddressesPlain(addresses[1..]);
      assert AddressNode(addresses[0]).children[1..] == [Parm("Addr", addresses[0].addr)];
    }
  }

  lemma {:induction false} ApplicationsPlain(apps: seq<ApplicationConfig>)
    ensures PlainNodes(ApplicationNodes(apps))
  {
    if apps != [] {
      ApplicationsPlain(apps[1..]);
      ExtrasPlain(apps[0].extraParams);
      AddressesPlain(apps[0].addresses);
      assert PlainNodes(ApplicationChildren(apps[0]));
    }
  }

  lemma DocumentPlain(r: ServiceResponse)
    ensures PlainNodes(DocumentOf(r))
  {
    ApplicationsPlain(r.applications);
  }
}
