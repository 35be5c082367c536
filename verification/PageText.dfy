/** Wiki pages as text: a front-matter block, then the Markdown body. */
module PageText {
  import opened Wrappers
  import opened Texts
  import opened BodyHash

  /** A front-matter value. */
  datatype Value = Null | Text(text: string) | Items(items: seq<string>) | Mapping(entries: map<string, string>) {
    /** Python truth. */
    predicate Truthy() {
      match this
      case Null => false
      case Text(t) => t != ""
      case Items(xs) => xs != []
      case Mapping(m) => m != map[]
    }
  }

  datatype Key =
    | Id | Kind | Title | Slug | CreatedAt | UpdatedAt | Hash | Status | Generator | CorpusRevision
    | TopicIds | Aliases | ParentTopicId | SourceId | SourceKind | SourceMetadata | InspectionStatus

  type Header = map<Key, Value>

  /** YAML, and how Python shows or lists a value of another type than expected. load has no value for text
      that is no mapping. */
  datatype Codec = Codec(
    dump: Header -> string,
    load: string -> Option<Header>,
    show: Value -> string,
    listed: Value -> seq<string>)

  datatype Page = Page(
    kind: string, title: string, slug: string, body: string, id: string, status: string, generator: string,
    corpusRevision: string, createdAt: string, updatedAt: string, contentHash: string,
    topicIds: seq<string>, aliases: seq<string>,
    parentTopicId: Option<string>,
    sourceId: Option<string>, sourceKind: Value, sourceMetadata: Value, inspectionStatus: Value)

  // ----- printing ------------------------------------------------------------------------------------

  function Optional(o: Option<string>): Value {
    match o
    case Some(t) => Text(t)
    case None => Null
  }

  /** The fields every page has, and those of its kind. */
  predicate HasField(kind: string, key: Key) {
    match key
    case TopicIds => kind == "concept"
    case Aliases => kind == "concept"
    case ParentTopicId => kind == "topic"
    case SourceId => kind == "source"
    case SourceKind => kind == "source"
    case SourceMetadata => kind == "source"
    case InspectionStatus => kind == "source"
    case _ => true
  }

  function Field(p: Page, key: Key): Value {
    match key
    case Id => Text(p.id)
    case Kind => Text(p.kind)
    case Title => Text(p.title)
    case Slug => Text(p.slug)
    case CreatedAt => Text(p.createdAt)
    case UpdatedAt => Text(p.updatedAt)
    case Hash => Text(p.contentHash)
    case Status => Text(p.status)
    case Generator => Text(p.generator)
    case CorpusRevision => Text(p.corpusRevision)
    case TopicIds => Items(p.topicIds)
    case Aliases => Items(p.aliases)
    case ParentTopicId => Optional(p.parentTopicId)
    case SourceId => Optional(p.sourceId)
    case SourceKind => p.sourceKind
    case SourceMetadata => if p.sourceMetadata.Truthy() then p.sourceMetadata else Mapping(map[])
    case InspectionStatus => p.inspectionStatus
  }

  function Frontmatter(p: Page): Header {
    map key: Key | HasField(p.kind, key) :: Field(p, key)
  }

  const OPENING := "---\n"
  const CLOSING := "\n---\n"

  function Block(c: Codec, p: Page): string {
    StripRight(c.dump(Frontmatter(p)))
  }

  function Print(c: Codec, p: Page): string {
    OPENING + Block(c, p) + CLOSING + "\n" + Strip(p.body) + "\n"
  }

  // ----- parsing ---------------------------------------------------------------------------------------

  datatype Result = Parsed(page: Page) | NoBlock | BlockNotClosed | BlockNotReadable

  /** text.find(sub, from) */
  function Find(text: string, sub: string, from: nat): Option<nat>
    decreases |text| - from
  {
    if from + |sub| > |text| then None
    else if text[from..from + |sub|] == sub then Some(from)
    else Find(text, sub, from + 1)
  }

  function Shown(c: Codec, v: Value): string {
    if v.Text? then v.text else c.show(v)
  }

  function TextField(c: Codec, h: Header, key: Key, default: string): string {
    if key in h then Shown(c, h[key]) else default
  }

  function RawField(h: Header, key: Key): Value {
    if key in h then h[key] else Null
  }

  function Timestamp(c: Codec, v: Value): string {
    if v.Null? then "" else Shown(c, v)
  }

  function ListField(c: Codec, h: Header, key: Key): seq<string> {
    var v := RawField(h, key);
    if !v.Truthy() then [] else if v.Items? then v.items else c.listed(v)
  }

  function OptionalField(c: Codec, h: Header, key: Key): Option<string> {
    var v := RawField(h, key);
    if v.Truthy() then Some(Shown(c, v)) else None
  }

  function FromHeader(c: Codec, h: Header, body: string): Page {
    Page(TextField(c, h, Kind, ""), TextField(c, h, Title, ""), TextField(c, h, Slug, ""), body,
         TextField(c, h, Id, ""), TextField(c, h, Status, "draft"), TextField(c, h, Generator, "synth"),
         TextField(c, h, CorpusRevision, ""), Timestamp(c, RawField(h, CreatedAt)),
         Timestamp(c, RawField(h, UpdatedAt)), TextField(c, h, Hash, ""),
         ListField(c, h, TopicIds), ListField(c, h, Aliases), OptionalField(c, h, ParentTopicId),
         OptionalField(c, h, SourceId), RawField(h, SourceKind), RawField(h, SourceMetadata),
         RawField(h, InspectionStatus))
  }

  function Parse(c: Codec, text: string): Result {
    var t := Crlf(text);
    if |t| < |OPENING| || t[..|OPENING|] != OPENING then NoBlock
    else
      var end := Find(t, CLOSING, |OPENING|);
      if end.None? || end.value + |CLOSING| > |t| || end.value < |OPENING| then BlockNotClosed
      else
        var header := c.load(t[|OPENING|..end.value]);
        if header.None? then BlockNotReadable
        else Parsed(FromHeader(c, header.value, StripNewlines(t[end.value + |CLOSING|..])))
  }

  predicate StandsAt(text: string, sub: string, k: nat) {
    k + |sub| <= |text| && text[k..k + |sub|] == sub
  }

  /** The first occurrence from a position on, or none. */
  lemma {:induction false} FindIsFirst(text: string, sub: string, from: nat)
    ensures match Find(text, sub, from)
            case Some(k) =>
              from <= k && StandsAt(text, sub, k) && forall j: nat :: from <= j < k ==> !StandsAt(text, sub, j)
            case None =>
              forall j: nat :: from <= j ==> !StandsAt(text, sub, j)
    decreases |text| - from
  {
    if from + |sub| <= |text| && text[from..from + |sub|] != sub {
      FindIsFirst(text, sub, from + 1);
    }
  }

  /** A text is refused for lack of a block exactly when it does not open with the line of three hyphens, and for
      a block that is not closed exactly when it opens so and no such line follows. */
  lemma ParseRefusesIff(c: Codec, text: string)
    ensures var t := Crlf(text);
            && (Parse(c, text).NoBlock? <==> !StandsAt(t, "---\n", 0))
            && (Parse(c, text).BlockNotClosed?
                <==> StandsAt(t, "---\n", 0) && forall k: nat :: 4 <= k ==> !StandsAt(t, "\n---\n", k))
  {
    FindIsFirst(Crlf(text), CLOSING, |OPENING|);
  }

  /** A page whose front matter says nothing is an unpublished page of the synthesizer. */
  lemma EmptyHeaderIsDraft(c: Codec, body: string)
    ensures FromHeader(c, map[], body)
            == Page("", "", "", body, "", "draft", "synth", "", "", "", "", [], [], None, None, Null, Null, Null)
  {
  }

  // ----- the round trip ----------------------------------------------------------------------------------

  predicate ClosesAt(text: string, k: nat) {
    k + |CLOSING| <= |text| && text[k..k + |CLOSING|] == CLOSING
  }

  /** The block is free of carriage returns, as YAML writes them escaped, and no line of it but the first
      is "---". */
  ghost predicate Enclosed(block: string) {
    NoCr(block) && forall k: nat :: !ClosesAt(block + "\n", k)
  }

  /** YAML reads back the front matter of this page from the block it writes. */
  ghost predicate Faithful(c: Codec, p: Page) {
    Enclosed(Block(c, p)) && c.load(Block(c, p)) == Some(Frontmatter(p))
  }

  /** The page as the file keeps it: the given body, and of the kind-specific fields only those of its kind. */
  function Kept(p: Page, body: string): Page {
    Page(p.kind, p.title, p.slug, body, p.id, p.status, p.generator, p.corpusRevision, p.createdAt, p.updatedAt,
         p.contentHash,
         if p.kind == "concept" then p.topicIds else [],
         if p.kind == "concept" then p.aliases else [],
         if p.kind == "topic" then Filled(p.parentTopicId) else None,
         if p.kind == "source" then Filled(p.sourceId) else None,
         if p.kind == "source" then p.sourceKind else Null,
         if p.kind == "source" then (if p.sourceMetadata.Truthy() then p.sourceMetadata else Mapping(map[])) else Null,
         if p.kind == "source" then p.inspectionStatus else Null)
  }

  function Filled(o: Option<string>): Option<string> {
    if o == Some("") then None else o
  }

  ghost predicate HoldsFieldsOf(h: Header, p: Page) {
    forall key :: (key in h <==> HasField(p.kind, key)) && (key in h ==> h[key] == Field(p, key))
  }

  lemma FieldsOfHeader(c: Codec, h: Header, p: Page, body: string)
    requires HoldsFieldsOf(h, p)
    ensures FromHeader(c, h, body) == Kept(p, body)
  {
  }

  lemma FieldsReturn(c: Codec, p: Page, body: string)
    ensures FromHeader(c, Frontmatter(p), body) == Kept(p, body)
  {
    FieldsOfHeader(c, Frontmatter(p), p, body);
  }

  /** The front matter names the fields every page has, and with a topic its parent, with a concept its topics and
      aliases, with a source page its source; nothing else. */
  lemma FrontmatterNames(p: Page)
    ensures var h := Frontmatter(p);
            && (forall key :: key in h <==>
                  match key
                  case TopicIds => p.kind == "concept"
                  case Aliases => p.kind == "concept"
                  case ParentTopicId => p.kind == "topic"
                  case SourceId => p.kind == "source"
                  case SourceKind => p.kind == "source"
                  case SourceMetadata => p.kind == "source"
                  case InspectionStatus => p.kind == "source"
                  case _ => true)
            && h[Id] == Text(p.id) && h[Kind] == Text(p.kind) && h[Title] == Text(p.title) && h[Slug] == Text(p.slug)
            && h[CreatedAt] == Text(p.createdAt) && h[UpdatedAt] == Text(p.updatedAt) && h[Hash] == Text(p.contentHash)
            && h[Status] == Text(p.status) && h[Generator] == Text(p.generator)
            && h[CorpusRevision] == Text(p.corpusRevision)
            && (TopicIds in h ==> h[TopicIds] == Items(p.topicIds) && h[Aliases] == Items(p.aliases))
            && (ParentTopicId in h ==>
                  h[ParentTopicId] == if p.parentTopicId.Some? then Text(p.parentTopicId.value) else Null)
            && (SourceId in h ==> h[SourceId] == if p.sourceId.Some? then Text(p.sourceId.value) else Null)
  {
  }

  /** The closing line ends the block: it is found behind the block, whatever follows it. */
  lemma ClosingAt(block: string, tail: string, k: nat)
    requires Enclosed(block) && k < |block|
    ensures !ClosesAt(OPENING + block + CLOSING + tail, |OPENING| + k)
  {
    var t := OPENING + block + CLOSING + tail;
    var from := |OPENING| + k;
    var slice := t[from..from + |CLOSING|];
    if k + |CLOSING| <= |block| + 1 {
      assert slice == (block + "\n")[k..k + |CLOSING|];
      assert !ClosesAt(block + "\n", k);
    } else {
      var j := |block| - k;
      assert t[|OPENING + block|] == CLOSING[0] == '\n';
      assert slice[j] == t[from + j] && CLOSING[j] == '-';
    }
  }

  lemma {:induction false} FindsClosing(block: string, tail: string, k: nat)
    requires Enclosed(block) && k <= |block|
    ensures Find(OPENING + block + CLOSING + tail, CLOSING, |OPENING| + k) == Some(|OPENING| + |block|)
    decreases |block| - k
  {
    var t := OPENING + block + CLOSING + tail;
    if k == |block| {
      assert t[|OPENING| + k..|OPENING| + k + |CLOSING|] == CLOSING;
    } else {
      ClosingAt(block, tail, k);
      FindsClosing(block, tail, k + 1);
    }
  }

  /** Parsing a closed block and what follows it. */
  lemma ParseParts(c: Codec, block: string, rest: string, text: string, h: Header)
    requires Enclosed(block) && c.load(block) == Some(h)
    requires Crlf(text) == OPENING + block + CLOSING + rest
    ensures Parse(c, text) == Parsed(FromHeader(c, h, StripNewlines(rest)))
  {
    var t := Crlf(text);
    FindsClosing(block, rest, 0);
    assert t[..|OPENING|] == OPENING;
    assert t[|OPENING|..|OPENING| + |block|] == block;
    assert t[|OPENING| + |block| + |CLOSING|..] == rest;
  }

  lemma CrlfBehindHead(head: string, core: string)
    requires NoCr(head) && EndsWithNewline(head) && (core != "" ==> EndsDark(core))
    ensures Crlf(head + (core + "\n")) == head + (Crlf(core) + "\n")
  {
    CrlfOfNoCr(head);
    CrlfSplit(head, core + "\n");
    CrlfSplit(core, "\n");
    CrlfOfNoCr("\n");
  }

  function Head(block: string): string {
    OPENING + block + CLOSING + "\n"
  }

  /** Line ends of a printed page: only those of the body can change. */
  lemma CrlfOfPrint(c: Codec, p: Page)
    requires NoCr(Block(c, p))
    ensures Crlf(Print(c, p)) == Head(Block(c, p)) + (Crlf(Strip(p.body)) + "\n")
  {
    var block, core := Block(c, p), Strip(p.body);
    var lead, tail := StripIsBlankOrCore(p.body);
    CrlfBehindHead(Head(block), core);
    assert Print(c, p) == Head(block) + (core + "\n");
  }

  lemma UniversalOfPrint(c: Codec, p: Page)
    requires NoCr(Block(c, p))
    ensures Universal(Print(c, p)) == Head(Block(c, p)) + (ReadBack(p.body) + "\n")
  {
    CrlfOfPrint(c, p);
  }

  /** A head, a body without outer whitespace, and a newline. */
  lemma ParseBehindHead(c: Codec, block: string, core: string, text: string, h: Header)
    requires Enclosed(block) && c.load(block) == Some(h) && (core != "" ==> StartsDark(core) && EndsDark(core))
    requires Crlf(text) == Head(block) + (core + "\n")
    ensures Parse(c, text) == Parsed(FromHeader(c, h, core))
  {
    var rest := "\n" + core + "\n";
    assert Head(block) + (core + "\n") == OPENING + block + CLOSING + rest;
    ParseParts(c, block, rest, text, h);
    StrippedLines(rest, core);
  }

  lemma StrippedLines(s: string, core: string)
    requires s == "\n" + core + "\n" && (core != "" ==> StartsDark(core) && EndsDark(core))
    ensures StripNewlines(s) == core
  {
    StripNewlinesAround("\n", core, "\n");
  }

  lemma CrlfKeepsDark(s: string)
    requires s != "" ==> StartsDark(s) && EndsDark(s)
    ensures Crlf(s) != "" ==> StartsDark(Crlf(s)) && EndsDark(Crlf(s))
  {
    if s != "" {
      CrlfLast(s);
    }
  }

  /** Parsing a printed page gives back its fields and its stripped body, whatever the body contains: lines
      "---" in it do no harm. Only "\r\n" in the body becomes "\n". */
  lemma ParseOfPrint(c: Codec, p: Page)
    requires Faithful(c, p)
    ensures Parse(c, Print(c, p)) == Parsed(Kept(p, Crlf(Strip(p.body))))
  {
    var core := Crlf(Strip(p.body));
    var lead, tail := StripIsBlankOrCore(p.body);
    CrlfKeepsDark(Strip(p.body));
    CrlfOfPrint(c, p);
    ParseBehindHead(c, Block(c, p), core, Print(c, p), Frontmatter(p));
    FieldsReturn(c, p, core);
  }

  /** The same through a text file, whose line ends are all read as "\n". */
  lemma ReadOfWritten(c: Codec, p: Page)
    requires Faithful(c, p)
    ensures Parse(c, Universal(Print(c, p))) == Parsed(Kept(p, ReadBack(p.body)))
  {
    var core := ReadBack(p.body);
    UniversalOfPrint(c, p);
    UniversalShape(Print(c, p));
    CrlfOfNoCr(Universal(Print(c, p)));
    var lead, tail := StripIsBlankOrCore(p.body);
    UniversalShape(Strip(p.body));
    ReadBackShape(p.body);
    ParseBehindHead(c, Block(c, p), core, Universal(Print(c, p)), Frontmatter(p));
    FieldsReturn(c, p, core);
  }

  /** A page that was read stays as it is under writing and reading. */
  lemma ReadPageIsFixed(c: Codec, p: Page)
    requires Faithful(c, Kept(p, ReadBack(p.body)))
    ensures var read := Kept(p, ReadBack(p.body)); Parse(c, Universal(Print(c, read))) == Parsed(read)
  {
    var read := Kept(p, ReadBack(p.body));
    ReadOfWritten(c, read);
    ReadBackShape(p.body);
    UniversalShape(ReadBack(p.body));
  }

  /** Writing a page sets its content hash; the page that is then read from the vault passes the hash rule
      exactly when the first line of the body with content is not indented. */
  lemma WrittenPagePassesHashRuleIff(c: Codec, p: Page, sha: string -> string)
    requires Faithful(c, p) && p.contentHash == ContentHash(p.body, sha) && p.contentHash != ""
    requires sha(Normal(p.body)) == sha(Normal(ReadBack(p.body))) ==> Normal(p.body) == Normal(ReadBack(p.body))
    ensures var result := Parse(c, Universal(Print(c, p)));
            && result.Parsed?
            && (HashRuleHolds(result.page.contentHash, result.page.body, sha) <==> !FirstLineIndented(p.body))
  {
    ReadOfWritten(c, p);
    StoredHashMatchesIff(p.body, sha);
  }
}
