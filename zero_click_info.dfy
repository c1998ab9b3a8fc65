/**
 * The ZeroClickInfo result record and its constructor: the mapping from a
 * decoded instant-answer response to a fixed-shape record. The constructor
 * fills the record in four passes (direct fields, type tag, Results,
 * RelatedTopics), each a method that updates the object's fields and is
 * proved against a specification function of the decoded document.
 */
module ZeroClick {
  import opened Wrappers
  import opened Json
  import opened OrderedMap
  import opened Topics

  // Result types.
  const TypeNone: int := 0
  const TypeArticle: int := 1
  const TypeCategory: int := 2
  const TypeDisambiguation: int := 3
  const TypeExclusive: int := 4
  const TypeName: int := 5

  /** From the one-letter `Type` code of a response to the result types above. */
  const ResultTypeMapping: map<string, int> :=
    map["A" := TypeArticle, "C" := TypeCategory, "D" := TypeDisambiguation,
        "E" := TypeExclusive, "N" := TypeName]

  /** The record's members that are copied unchanged from the response. */
  datatype Member =
    | Summary | TextSummary | SummarySource | SummarySourceURL | ImageURL | Heading
    | Answer | AnswerType | Definition | DefinitionSource | DefinitionSourceURL

  /** Response field -> member. */
  const DirectMappings: seq<(string, Member)> := [
    ("Abstract", Summary),
    ("AbstractText", TextSummary),
    ("AbstractSource", SummarySource),
    ("AbstractURL", SummarySourceURL),
    ("Image", ImageURL),
    ("Heading", Heading),
    ("Answer", Answer),
    ("AnswerType", AnswerType),
    ("Definition", Definition),
    ("DefinitionSource", DefinitionSource),
    ("DefinitionURL", DefinitionSourceURL)
  ]

  /** The failures of a query: the constructor's and the client's exceptions. */
  datatype ApiError = ParseError | RetrievalError

  /** Where a member sits in the rename table: the table read backwards. */
  function MemberIndex(m: Member): (i: nat)
    ensures i < |DirectMappings| && DirectMappings[i].1 == m
  {
    match m
    case Summary => 0
    case TextSummary => 1
    case SummarySource => 2
    case SummarySourceURL => 3
    case ImageURL => 4
    case Heading => 5
    case Answer => 6
    case AnswerType => 7
    case Definition => 8
    case DefinitionSource => 9
    case DefinitionSourceURL => 10
  }

  /**
   * The table is a bijection between 11 distinct response fields and the
   * 11 members: every member has exactly one entry, so none is left
   * unassigned and none is assigned twice.
   */
  lemma DirectMappingsBijective()
    ensures |DirectMappings| == 11
    ensures forall i, j :: 0 <= i < j < |DirectMappings| ==>
              DirectMappings[i].0 != DirectMappings[j].0 && DirectMappings[i].1 != DirectMappings[j].1
    ensures forall i :: 0 <= i < |DirectMappings| ==> MemberIndex(DirectMappings[i].1) == i
  {
  }

  /**
   * The result type of a response: the code under `Type` when it is one of
   * A, C, D, E, N, and TypeNone when `Type` is missing, NULL or any other
   * value.
   */
  function ResultTypeOf(data: Value): (t: int)
    ensures t == TypeArticle <==> Lookup(data, "Type") == Some(Str("A"))
    ensures t == TypeCategory <==> Lookup(data, "Type") == Some(Str("C"))
    ensures t == TypeDisambiguation <==> Lookup(data, "Type") == Some(Str("D"))
    ensures t == TypeExclusive <==> Lookup(data, "Type") == Some(Str("E"))
    ensures t == TypeName <==> Lookup(data, "Type") == Some(Str("N"))
    ensures t == TypeNone <==>
              Lookup(data, "Type") !in {Some(Str("A")), Some(Str("C")), Some(Str("D")), Some(Str("E")), Some(Str("N"))}
  {
    match Lookup(data, "Type")
    case Some(Str(code)) => if code in ResultTypeMapping then ResultTypeMapping[code] else TypeNone
    case _ => TypeNone
  }

  /**
   * The `results` member: NULL when the response has no (or a NULL)
   * `Results`, otherwise one topic per entry, in order, so an empty list
   * gives an empty list.
   */
  function ResultsOf(data: Value): (r: Option<seq<Topic>>)
    ensures r.None? <==> Lookup(data, "Results").None?
    ensures r.Some? ==>
              var entries := Elements(Lookup(data, "Results"));
              |r.value| == |entries| && forall i :: 0 <= i < |entries| ==> r.value[i] == ToTopic(entries[i])
  {
    if Lookup(data, "Results").Some? then Some(MapTopics(Elements(Lookup(data, "Results")))) else None
  }

  /**
   * The `relatedTopics` member: NULL when the response has no (or a NULL)
   * `RelatedTopics`, otherwise the grouping of its entries, a map with
   * unique keys (possibly empty).
   */
  function RelatedTopicsOf(data: Value): (r: Option<Groups>)
    ensures r.None? <==> Lookup(data, "RelatedTopics").None?
    ensures r.Some? ==> UniqueKeys(r.value)
    ensures Lookup(data, "RelatedTopics") == Some(Arr([])) ==> r == Some([])
  {
    var related := Lookup(data, "RelatedTopics");
    if related.Some? then
      GroupedUniqueKeys(Entries(Elements(related)));
      Some(Grouped(Entries(Elements(related))))
    else None
  }

  class ZeroClickInfo {
    var heading: Option<Value>
    var summary: Option<Value>
    var textSummary: Option<Value>
    var summarySource: Option<Value>
    var summarySourceURL: Option<Value>
    var imageURL: Option<Value>
    var answer: Option<Value>
    var answerType: Option<Value>
    var definition: Option<Value>
    var definitionSource: Option<Value>
    var definitionSourceURL: Option<Value>
    var relatedTopics: Option<Groups>
    var results: Option<seq<Topic>>
    var resultType: int

    /** The member a direct mapping names. */
    function Field(m: Member): Option<Value>
      reads this`summary, this`textSummary, this`summarySource, this`summarySourceURL, this`imageURL, this`heading, this`answer, this`answerType, this`definition, this`definitionSource, this`definitionSourceURL
    {
      match m
      case Summary => summary
      case TextSummary => textSummary
      case SummarySource => summarySource
      case SummarySourceURL => summarySourceURL
      case ImageURL => imageURL
      case Heading => heading
      case Answer => answer
      case AnswerType => answerType
      case Definition => definition
      case DefinitionSource => definitionSource
      case DefinitionSourceURL => definitionSourceURL
    }

    /** Every directly mapped member holds the response's value for its field, or NULL. */
    ghost predicate DirectFieldsMatch(data: Value)
      reads this`summary, this`textSummary, this`summarySource, this`summarySourceURL, this`imageURL, this`heading, this`answer, this`answerType, this`definition, this`definitionSource, this`definitionSourceURL
    {
      forall i :: 0 <= i < |DirectMappings| ==> Field(DirectMappings[i].1) == Lookup(data, DirectMappings[i].0)
    }

    /** The record is the one the constructor makes from `data`. */
    ghost predicate Models(data: Value)
      reads this
    {
      && DirectFieldsMatch(data)
      && resultType == ResultTypeOf(data)
      && results == ResultsOf(data)
      && relatedTopics == RelatedTopicsOf(data)
    }

    /** Every member of a record that models `data`, spelled out. */
    lemma MembersOf(data: Value)
      requires DirectFieldsMatch(data)
      ensures && summary == Lookup(data, "Abstract")
              && textSummary == Lookup(data, "AbstractText")
              && summarySource == Lookup(data, "AbstractSource")
              && summarySourceURL == Lookup(data, "AbstractURL")
              && imageURL == Lookup(data, "Image")
              && heading == Lookup(data, "Heading")
              && answer == Lookup(data, "Answer")
              && answerType == Lookup(data, "AnswerType")
              && definition == Lookup(data, "Definition")
              && definitionSource == Lookup(data, "DefinitionSource")
              && definitionSourceURL == Lookup(data, "DefinitionURL")
    {
      assert Field(DirectMappings[0].1) == Lookup(data, DirectMappings[0].0);
      assert Field(DirectMappings[1].1) == Lookup(data, DirectMappings[1].0);
      assert Field(DirectMappings[2].1) == Lookup(data, DirectMappings[2].0);
      assert Field(DirectMappings[3].1) == Lookup(data, DirectMappings[3].0);
      assert Field(DirectMappings[4].1) == Lookup(data, DirectMappings[4].0);
      assert Field(DirectMappings[5].1) == Lookup(data, DirectMappings[5].0);
      assert Field(DirectMappings[6].1) == Lookup(data, DirectMappings[6].0);
      assert Field(DirectMappings[7].1) == Lookup(data, DirectMappings[7].0);
      assert Field(DirectMappings[8].1) == Lookup(data, DirectMappings[8].0);
      assert Field(DirectMappings[9].1) == Lookup(data, DirectMappings[9].0);
      assert Field(DirectMappings[10].1) == Lookup(data, DirectMappings[10].0);
    }

    /**
     * Builds the record from a truthy decoded response (all members start
     * as NULL); `Create` refuses a falsy one before calling this.
     */
    constructor (data: Value)
      requires Truthy(data)
      ensures Models(data)
    {
      heading, summary, textSummary, summarySource, summarySourceURL := None, None, None, None, None;
      imageURL, answer, answerType, definition := None, None, None, None;
      definitionSource, definitionSourceURL := None, None;
      relatedTopics, results, resultType := None, None, TypeNone;
      new;
      MapDirectFields(data);
      MapType(data);
      MapResults(data);
      MapRelatedTopics(data);
    }

    /** `$this->$memberName = value`. */
    method AssignMember(m: Member, value: Option<Value>)
      modifies this`summary, this`textSummary, this`summarySource, this`summarySourceURL, this`imageURL, this`heading, this`answer, this`answerType, this`definition, this`definitionSource, this`definitionSourceURL
      ensures Field(m) == value
      ensures forall m' :: m' != m ==> Field(m') == old(Field(m'))
    {
      match m
      case Summary => summary := value;
      case TextSummary => textSummary := value;
      case SummarySource => summarySource := value;
      case SummarySourceURL => summarySourceURL := value;
      case ImageURL => imageURL := value;
      case Heading => heading := value;
      case Answer => answer := value;
      case AnswerType => answerType := value;
      case Definition => definition := value;
      case DefinitionSource => definitionSource := value;
      case DefinitionSourceURL => definitionSourceURL := value;
    }

    /** The direct-mapping pass over the rename table. */
    method MapDirectFields(data: Value)
      modifies this`summary, this`textSummary, this`summarySource, this`summarySourceURL, this`imageURL, this`heading, this`answer, this`answerType, this`definition, this`definitionSource, this`definitionSourceURL
      ensures DirectFieldsMatch(data)
    {
      DirectMappingsBijective();
      var i := 0;
      while i < |DirectMappings|
        invariant 0 <= i <= |DirectMappings|
        invariant forall j :: 0 <= j < i ==> Field(DirectMappings[j].1) == Lookup(data, DirectMappings[j].0)
      {
        var (apiKey, member) := DirectMappings[i];
        AssignMember(member, Lookup(data, apiKey));
        assert forall j :: 0 <= j < i ==> DirectMappings[j].1 != member;
        i := i + 1;
      }
    }

    /** The type-tag pass. */
    method MapType(data: Value)
      modifies this`resultType
      ensures resultType == ResultTypeOf(data)
    {
      var code := Lookup(data, "Type");
      if code.Some? && code.value.Str? && code.value.s in ResultTypeMapping {
        resultType := ResultTypeMapping[code.value.s];
      } else {
        resultType := TypeNone;
      }
    }

    /** The `Results` pass: one topic appended per entry. */
    method MapResults(data: Value)
      modifies this`results
      ensures results == if Lookup(data, "Results").Some? then ResultsOf(data) else old(results)
    {
      var apiResults := Lookup(data, "Results");
      if apiResults.Some? {
        results := Some([]);
        var entries := Elements(apiResults);
        for i := 0 to |entries|
          invariant results == Some(MapTopics(entries[..i]))
        {
          var apiResult := entries[i];
          var result := Topic(Lookup(apiResult, "Text"), Lookup(apiResult, "FirstURL"), IconURL(apiResult));
          MapTopicsSnoc(entries[..i], apiResult);
          assert entries[..i + 1] == entries[..i] + [apiResult];
          results := Some(results.value + [result]);
        }
        assert entries[..|entries|] == entries;
      }
    }

    /**
     * The `RelatedTopics` pass, entry by entry: a named entry resets its
     * category, an unnamed one goes to General, and an entry whose name is
     * an illegal array key changes nothing.
     */
    method MapRelatedTopics(data: Value)
      modifies this`relatedTopics
      ensures relatedTopics == if Lookup(data, "RelatedTopics").Some? then RelatedTopicsOf(data) else old(relatedTopics)
    {
      var apiTopics := Lookup(data, "RelatedTopics");
      if apiTopics.Some? {
        relatedTopics := Some([]);
        var subjects := Elements(apiTopics);
        for i := 0 to |subjects|
          invariant relatedTopics == Some(Grouped(Entries(subjects[..i])))
        {
          var subject := subjects[i];
          GroupedEntriesSnoc(subjects, i);
          var name := Lookup(subject, "Name");
          if name.Some? {
            var key := ArrayKey(name.value);
            if key.Some? {
              ResetCategory(key.value, Elements(Lookup(subject, "Topics")));
            }
          } else {
            AddToGeneral(ToTopic(subject));
          }
        }
        assert subjects[..|subjects|] == subjects;
      }
    }

    /** A named entry: `$this->relatedTopics[k] = array()`, then one append per topic. */
    method ResetCategory(k: string, apiRelatedTopics: seq<Value>)
      requires relatedTopics.Some?
      modifies this`relatedTopics
      ensures relatedTopics == Some(GroupStep(old(relatedTopics.value), Category(k, apiRelatedTopics)))
    {
      ghost var before := relatedTopics.value;
      relatedTopics := Some(Put(relatedTopics.value, k, []));
      for j := 0 to |apiRelatedTopics|
        invariant relatedTopics == Some(Put(before, k, MapTopics(apiRelatedTopics[..j])))
      {
        var relatedTopic := ToTopic(apiRelatedTopics[j]);
        var groups := relatedTopics.value;
        MapTopicsSnoc(apiRelatedTopics[..j], apiRelatedTopics[j]);
        assert apiRelatedTopics[..j + 1] == apiRelatedTopics[..j] + [apiRelatedTopics[j]];
        PutPut(before, k, MapTopics(apiRelatedTopics[..j]), Get(groups, k).value + [relatedTopic]);
        relatedTopics := Some(Put(groups, k, Get(groups, k).value + [relatedTopic]));
      }
      assert apiRelatedTopics[..|apiRelatedTopics|] == apiRelatedTopics;
    }

    /** An unnamed entry: create General when missing, then append to it. */
    method AddToGeneral(relatedTopic: Topic)
      requires relatedTopics.Some?
      modifies this`relatedTopics
      ensures relatedTopics == Some(GroupStep(old(relatedTopics.value), Uncategorized(relatedTopic)))
    {
      ghost var before := relatedTopics.value;
      if !HasKey(relatedTopics.value, General) {
        relatedTopics := Some(Put(relatedTopics.value, General, []));
        PutPut(before, General, [], [] + [relatedTopic]);
        assert [] + [relatedTopic] == [relatedTopic];
      }
      var groups := relatedTopics.value;
      relatedTopics := Some(Put(groups, General, Get(groups, General).value + [relatedTopic]));
    }

    /**
     * `new ZeroClickInfo($data)`: a falsy document (NULL, false, 0, "",
     * "0", or an empty array, which includes a decoded `{}`) is refused
     * with a parse error and no record is made.
     */
    static method Create(data: Value) returns (r: Result<ZeroClickInfo, ApiError>)
      ensures !Truthy(data) ==> r == Failure(ParseError)
      ensures Truthy(data) ==> r.Success? && fresh(r.value) && r.value.Models(data)
    {
      if !Truthy(data) {
        return Failure(ParseError);
      }
      var info := new ZeroClickInfo(data);
      return Success(info);
    }
  }
}
