/**
 * Worked responses: small decoded documents and what the mapper makes of
 * them, stated over the specification functions and the record.
 */
module Scenarios {
  import opened Wrappers
  import opened Json
  import opened OrderedMap
  import opened Topics
  import opened ZeroClick
  import opened UrlEncoding
  import opened DuckDuckGoApi

  function TopicEntry(text: string, url: string, icon: string): Value {
    Obj([("Text", Str(text)), ("FirstURL", Str(url)), ("Icon", Obj([("URL", Str(icon))]))])
  }

  lemma ToTopicEntry(text: string, url: string, icon: string)
    ensures ToTopic(TopicEntry(text, url, icon)) == Topic(Some(Str(text)), Some(Str(url)), Some(Str(icon)))
  {
    var entry := TopicEntry(text, url, icon);
    var iconObj := Obj([("URL", Str(icon))]);
    assert entry.members[1..] == [("FirstURL", Str(url)), ("Icon", iconObj)];
    assert entry.members[1..][1..] == [("Icon", iconObj)];
    assert Lookup(entry, "Text") == Some(Str(text));
    assert Find(entry.members[1..], "FirstURL") == Some(Str(url));
    assert |"Text"| != |"FirstURL"|;
    assert Lookup(entry, "FirstURL") == Some(Str(url));
    assert Find(entry.members[1..][1..], "Icon") == Some(iconObj);
    assert Find(entry.members[1..], "Icon") == Some(iconObj);
    assert "Text"[0] != "Icon"[0];
    assert Lookup(entry, "Icon") == Some(iconObj);
    assert Lookup(iconObj, "URL") == Some(Str(icon));
  }

  /** A `RelatedTopics` entry naming category `name` with the given topic entries. */
  function CategoryEntry(name: string, topics: seq<Value>): Value {
    Obj([("Name", Str(name)), ("Topics", Arr(topics))])
  }

  lemma ClassifyCategoryEntry(name: string, topics: seq<Value>)
    ensures Classify(CategoryEntry(name, topics)) == Category(name, topics)
  {
    var subject := CategoryEntry(name, topics);
    assert subject.members[1..] == [("Topics", Arr(topics))];
    assert Lookup(subject, "Name") == Some(Str(name));
    assert Find(subject.members[1..], "Topics") == Some(Arr(topics));
    assert Lookup(subject, "Topics") == Some(Arr(topics));
  }

  lemma ClassifyTopicEntry(text: string, url: string, icon: string)
    ensures Classify(TopicEntry(text, url, icon)) == Uncategorized(ToTopic(TopicEntry(text, url, icon)))
  {
    var entry := TopicEntry(text, url, icon);
    assert entry.members[1..] == [("FirstURL", Str(url)), ("Icon", Obj([("URL", Str(icon))]))];
    assert entry.members[1..][1..] == [("Icon", Obj([("URL", Str(icon))]))];
    assert "Text"[0] != "Name"[0] && "Icon"[0] != "Name"[0];
    assert Lookup(entry, "Name") == None;
  }

  lemma EntriesOfTwo(a: Value, b: Value)
    ensures Entries([a, b]) == [Classify(a), Classify(b)]
  {
    var es := Entries([a, b]);
    assert es[0] == Classify(a) && es[1] == Classify(b);
  }

  lemma GroupedTwo(a: Entry, b: Entry)
    ensures Grouped([a, b]) == GroupStep(GroupStep([], a), b)
  {
    calc {
      Grouped([a, b]);
      GroupStep(Grouped([a, b][..1]), b);
      { assert [a, b][..1] == [a]; }
      GroupStep(Grouped([a]), b);
      { assert [a][..0] == []; }
      GroupStep(GroupStep(Grouped([]), a), b);
    }
  }

  /**
   * A category holding one topic followed by one unnamed topic gives the
   * category with that topic and then General with the other, in that
   * order (for example "Cat1" with t1, then t2).
   */
  lemma RelatedTopicsExample(name: string, t1: (string, string, string), t2: (string, string, string))
    requires name != General
    ensures RelatedTopicsOf(Obj([("RelatedTopics", Arr([CategoryEntry(name, [TopicEntry(t1.0, t1.1, t1.2)]),
                                                        TopicEntry(t2.0, t2.1, t2.2)]))]))
            == Some([(name, [Topic(Some(Str(t1.0)), Some(Str(t1.1)), Some(Str(t1.2)))]),
                     (General, [Topic(Some(Str(t2.0)), Some(Str(t2.1)), Some(Str(t2.2)))])])
  {
    var e1 := TopicEntry(t1.0, t1.1, t1.2);
    var e2 := TopicEntry(t2.0, t2.1, t2.2);
    var subjects := [CategoryEntry(name, [e1]), e2];
    var doc := Obj([("RelatedTopics", Arr(subjects))]);
    assert Lookup(doc, "RelatedTopics") == Some(Arr(subjects));
    assert Elements(Lookup(doc, "RelatedTopics")) == subjects;
    ClassifyCategoryEntry(name, [e1]);
    ClassifyTopicEntry(t2.0, t2.1, t2.2);
    ToTopicEntry(t1.0, t1.1, t1.2);
    ToTopicEntry(t2.0, t2.1, t2.2);
    EntriesOfTwo(subjects[0], subjects[1]);
    assert subjects == [subjects[0], subjects[1]];
    var es := Entries(subjects);
    assert MapTopics([e1]) == [ToTopic(e1)];
    CategoryThenUnnamed(name, [e1], ToTopic(e2));
    assert RelatedTopicsOf(doc) == Some(Grouped(es));
  }

  /** A category followed by an unnamed entry: the category, then General. */
  lemma CategoryThenUnnamed(name: string, topics: seq<Value>, t: Topic)
    requires name != General
    ensures Grouped([Category(name, topics), Uncategorized(t)]) == [(name, MapTopics(topics)), (General, [t])]
  {
    var c1, c2 := Category(name, topics), Uncategorized(t);
    GroupedTwo(c1, c2);
    var g := GroupStep([], c1);
    assert g == [(name, MapTopics(topics))];
    assert !HasKey(g, General);
    assert GroupStep(g, c2) == g + [(General, [t])];
  }

  function IrcAnswer(): Value {
    Obj([("Heading", Str("IRC")),
         ("AbstractText", Str("Internet Relay Chat is a protocol...")),
         ("Type", Str("A"))])
  }

  /** A record built from the instant answer for "Internet Relay Chat". */
  lemma IrcExample(info: ZeroClickInfo)
    requires info.Models(IrcAnswer())
    ensures info.heading == Some(Str("IRC"))
    ensures info.textSummary == Some(Str("Internet Relay Chat is a protocol..."))
    ensures info.resultType == TypeArticle
    ensures info.summary == None && info.summarySource == None && info.summarySourceURL == None
    ensures info.imageURL == None && info.answer == None && info.answerType == None
    ensures info.definition == None && info.definitionSource == None && info.definitionSourceURL == None
    ensures info.results == None && info.relatedTopics == None
  {
    IrcLookups();
    IrcMissingAbstract();
    IrcMissingAnswer();
    IrcMissingLists();
    info.MembersOf(IrcAnswer());
  }

  lemma IrcLookups()
    ensures Lookup(IrcAnswer(), "Heading") == Some(Str("IRC"))
    ensures Lookup(IrcAnswer(), "AbstractText") == Some(Str("Internet Relay Chat is a protocol..."))
    ensures Lookup(IrcAnswer(), "Type") == Some(Str("A"))
  {
  }

  lemma IrcMissingAbstract()
    ensures Lookup(IrcAnswer(), "Abstract") == None
    ensures Lookup(IrcAnswer(), "AbstractSource") == None
    ensures Lookup(IrcAnswer(), "AbstractURL") == None
    ensures Lookup(IrcAnswer(), "Image") == None
  {
  }

  lemma IrcMissingAnswer()
    ensures Lookup(IrcAnswer(), "Answer") == None
    ensures Lookup(IrcAnswer(), "AnswerType") == None
    ensures Lookup(IrcAnswer(), "Definition") == None
    ensures Lookup(IrcAnswer(), "DefinitionSource") == None
    ensures Lookup(IrcAnswer(), "DefinitionURL") == None
  {
  }

  lemma IrcMissingLists()
    ensures Lookup(IrcAnswer(), "Results") == None
    ensures Lookup(IrcAnswer(), "RelatedTopics") == None
  {
  }

  /**
   * End to end, with any client settings: a query (such as "Internet Relay
   * Chat") whose body the decoder turns into the instant answer for IRC
   * yields that record.
   */
  method IrcQuery(api: API, query: Bytes) returns (info: ZeroClickInfo)
    ensures info.Models(IrcAnswer())
    ensures info.heading == Some(Str("IRC"))
    ensures info.textSummary == Some(Str("Internet Relay Chat is a protocol..."))
    ensures info.resultType == TypeArticle
    ensures info.summary == None && info.summarySource == None && info.summarySourceURL == None
    ensures info.imageURL == None && info.answer == None && info.answerType == None
    ensures info.definition == None && info.definitionSource == None && info.definitionSourceURL == None
    ensures info.results == None && info.relatedTopics == None
  {
    var fetch := (url: Bytes) => Some("{...}");
    var decode := (body: Bytes) => IrcAnswer();
    var r := api.ZeroClickQuery(query, fetch, decode);
    ghost var result := fetch(api.ZeroClickURL(query));
    assert result == Some("{...}");
    UsableBodyIsTruthy(result);
    assert decode(result.value) == IrcAnswer();
    assert Truthy(IrcAnswer());
    info := r.value;
    IrcExample(info);
  }

  /** A decoded `{}` is an empty array in PHP, hence falsy: the query fails to parse. */
  method EmptyObjectQuery(api: API, query: Bytes) returns (r: Result<ZeroClickInfo, ApiError>)
    ensures r == Failure(ParseError)
  {
    var fetch := (url: Bytes) => Some("{}");
    var decode := (body: Bytes) => Obj([]);
    r := api.ZeroClickQuery(query, fetch, decode);
    ghost var result := fetch(api.ZeroClickURL(query));
    assert result == Some("{}");
    UsableBodyIsTruthy(result);
    assert !Truthy(decode(result.value));
  }

  /** A transport that yields nothing fails before anything is decoded. */
  method NoBodyQuery(api: API, query: Bytes) returns (r: Result<ZeroClickInfo, ApiError>)
    ensures r == Failure(RetrievalError)
  {
    r := api.ZeroClickQuery(query, (url: Bytes) => None, (body: Bytes) => Obj([]));
  }
}
