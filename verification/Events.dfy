/** The mention events of `shared/events.py`, their flat form in a Redis stream
    (`_serialize_value`), and the field copying of `analyze_mention` in
    `services/analyzer_service/app/main.py`. */
module Events {
  import opened Wrappers
  import Decimal

  const TEXT_MAX_LENGTH := 5000

  datatype Mention = Mention(
    projectId: int, platform: string, sourceId: string, sourceUrl: string, text: string,
    authorName: string, authorHandle: string, authorFollowers: int, authorProfileUrl: string,
    likes: int, shares: int, comments: int, reach: int, publishedAt: string, matchedKeywords: string)

  /** `eventId` is the random idempotency key of the event. */
  datatype RawMention = RawMention(mention: Mention, eventId: string, schemaVersion: string)

  datatype NlpResult = NlpResult(sentiment: string, score: real, language: string, topics: string, tier: string)

  datatype AnalyzedMention = AnalyzedMention(mention: Mention, nlp: NlpResult)

  /** `__post_init__` of both event classes. */
  function Cut(m: Mention): Mention {
    if |m.text| > TEXT_MAX_LENGTH then m.(text := m.text[..TEXT_MAX_LENGTH]) else m
  }

  datatype Field =
    | ProjectId | Platform | SourceId | SourceUrl | Text | AuthorName | AuthorHandle | AuthorFollowers
    | AuthorProfileUrl | Likes | Shares | Comments | Reach | PublishedAt | MatchedKeywords | EventId | SchemaVersion

  type Flat = map<Field, string>

  datatype Value = Int(n: int) | Str(s: string)

  /** `_serialize_value` on the values that these events have. */
  function SerializeValue(v: Value): string {
    match v
    case Int(n) => Decimal.Str(n)
    case Str(s) => s
  }

  function ValueOf(r: RawMention, f: Field): Value {
    match f
    case ProjectId => Int(r.mention.projectId)
    case Platform => Str(r.mention.platform)
    case SourceId => Str(r.mention.sourceId)
    case SourceUrl => Str(r.mention.sourceUrl)
    case Text => Str(r.mention.text)
    case AuthorName => Str(r.mention.authorName)
    case AuthorHandle => Str(r.mention.authorHandle)
    case AuthorFollowers => Int(r.mention.authorFollowers)
    case AuthorProfileUrl => Str(r.mention.authorProfileUrl)
    case Likes => Int(r.mention.likes)
    case Shares => Int(r.mention.shares)
    case Comments => Int(r.mention.comments)
    case Reach => Int(r.mention.reach)
    case PublishedAt => Str(r.mention.publishedAt)
    case MatchedKeywords => Str(r.mention.matchedKeywords)
    case EventId => Str(r.eventId)
    case SchemaVersion => Str(r.schemaVersion)
  }

  /** The fields that `publish` writes for a raw mention. */
  function Flatten(r: RawMention): Flat {
    map f: Field | true :: SerializeValue(ValueOf(r, f))
  }

  /** `data.get(f, default)`. */
  function TextField(data: Flat, f: Field): string { if f in data then data[f] else "" }

  /** `int(data.get(f, 0))`; `None` is a ValueError. */
  function IntField(data: Flat, f: Field): Option<int> {
    if f in data then Decimal.ParseInt(data[f]) else Some(0)
  }

  /** The fields that an analysed event copies, from readers of the integer and text fields. */
  function CopyFields(ints: Field -> Option<int>, texts: Field -> string): Option<Mention> {
    if ints(Likes) == None || ints(Shares) == None || ints(Comments) == None || ints(ProjectId) == None
       || ints(AuthorFollowers) == None || ints(Reach) == None
    then None
    else Some(Cut(Mention(
      ints(ProjectId).value, texts(Platform), texts(SourceId), texts(SourceUrl), texts(Text),
      texts(AuthorName), texts(AuthorHandle), ints(AuthorFollowers).value, texts(AuthorProfileUrl),
      ints(Likes).value, ints(Shares).value, ints(Comments).value, ints(Reach).value,
      texts(PublishedAt), texts(MatchedKeywords))))
  }

  /** `analyze_mention`, given what the NLP pipeline returned for it. `None` is a ValueError. */
  function AnalyzeMention(data: Flat, nlp: NlpResult): Option<AnalyzedMention> {
    match CopyFields(f => IntField(data, f), f => TextField(data, f))
    case None => None
    case Some(m) => Some(AnalyzedMention(m, nlp))
  }

  lemma FieldsCopied(r: RawMention, ints: Field -> Option<int>, texts: Field -> string)
    requires forall f :: match ValueOf(r, f) case Int(n) => ints(f) == Some(n) case Str(s) => texts(f) == s
    ensures CopyFields(ints, texts) == Some(Cut(r.mention))
  {
  }

  lemma IntFieldReadsBack(r: RawMention, f: Field)
    requires ValueOf(r, f).Int?
    ensures IntField(Flatten(r), f) == Some(ValueOf(r, f).n)
  {
    Decimal.ParseStr(ValueOf(r, f).n);
  }

  /** What the collector publishes is what the analyzer works on: flattening a mention and
      analysing the flat form copies every field unchanged, negative numbers included. */
  lemma AnalysisCopiesMention(m: Mention, eventId: string, schemaVersion: string, nlp: NlpResult)
    ensures AnalyzeMention(Flatten(RawMention(Cut(m), eventId, schemaVersion)), nlp) == Some(AnalyzedMention(Cut(m), nlp))
  {
    var r := RawMention(Cut(m), eventId, schemaVersion);
    var data := Flatten(r);
    forall f: Field
      ensures match ValueOf(r, f) case Int(n) => IntField(data, f) == Some(n) case Str(s) => TextField(data, f) == s
    {
      if ValueOf(r, f).Int? { IntFieldReadsBack(r, f); }
    }
    FieldsCopied(r, f => IntField(data, f), f => TextField(data, f));
    assert Cut(Cut(m)) == Cut(m);
  }

  /** A mention keeps the first 5000 characters of its text and all other fields. */
  lemma CutTells(m: Mention)
    ensures Cut(m).text <= m.text && |Cut(m).text| == (if |m.text| <= 5000 then |m.text| else 5000)
    ensures Cut(m).(text := m.text) == m
  {
  }

  /** Fields that a message lacks count as 0 or as empty text. */
  lemma MissingFieldsDefault(nlp: NlpResult)
    ensures AnalyzeMention(map[], nlp) ==
            Some(AnalyzedMention(Mention(0, "", "", "", "", "", "", 0, "", 0, 0, 0, 0, "", ""), nlp))
  {
  }

  /** A number that cannot be read fails the analysis. */
  lemma UnreadableNumberFails(data: Flat, f: Field, nlp: NlpResult)
    requires f in {ProjectId, AuthorFollowers, Likes, Shares, Comments, Reach} && f in data && Decimal.ParseInt(data[f]) == None
    ensures AnalyzeMention(data, nlp) == None
  {
  }
}
