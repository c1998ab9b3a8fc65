/**
 * Topics and their grouping: the part of the ZeroClickInfo constructor that
 * turns the `Results` and `RelatedTopics` lists of a response into topic
 * records and into an insertion-ordered map from category name to topics.
 * This module holds the specification functions; the class in module
 * ZeroClick computes them step by step.
 */
module Topics {
  import opened Wrappers
  import opened Json
  import opened OrderedMap

  /** The `stdClass` topic the constructor builds: description, URL, iconURL. */
  datatype Topic = Topic(description: Option<Value>, url: Option<Value>, iconURL: Option<Value>)

  /** Category name to topics, in insertion order, keys unique. */
  type Groups = seq<(string, seq<Topic>)>

  /** The bucket for entries that carry no category name. */
  const General: string := "General"

  /** `$entry['Icon']['URL']`: a missing or NULL Icon reads as NULL. */
  function IconURL(entry: Value): Option<Value> {
    match Lookup(entry, "Icon")
    case Some(icon) => Lookup(icon, "URL")
    case None => None
  }

  /** One topic-shaped API entry as a Topic; missing fields become None. */
  function ToTopic(entry: Value): Topic {
    Topic(Lookup(entry, "Text"), Lookup(entry, "FirstURL"), IconURL(entry))
  }

  /**
   * Each of a topic's values is present only when the entry holds it; an
   * entry that is not an object (a scalar, a list) gives an all-NULL topic.
   */
  lemma ToTopicValues(entry: Value)
    ensures ToTopic(entry).description.Some? ==> entry.Obj? && Lookup(entry, "Text").Some?
    ensures ToTopic(entry).url.Some? ==> entry.Obj? && Lookup(entry, "FirstURL").Some?
    ensures ToTopic(entry).iconURL.Some? ==>
              entry.Obj? && Lookup(entry, "Icon").Some? && Lookup(entry, "Icon").value.Obj?
              && Lookup(Lookup(entry, "Icon").value, "URL") == ToTopic(entry).iconURL
    ensures !entry.Obj? ==> ToTopic(entry) == Topic(None, None, None)
  {
  }

  /** Every entry mapped to a topic, in order. */
  function MapTopics(entries: seq<Value>): (ts: seq<Topic>)
    ensures |ts| == |entries|
    ensures forall i :: 0 <= i < |entries| ==> ts[i] == ToTopic(entries[i])
  {
    if entries == [] then [] else [ToTopic(entries[0])] + MapTopics(entries[1..])
  }

  lemma MapTopicsSnoc(entries: seq<Value>, e: Value)
    ensures MapTopics(entries + [e]) == MapTopics(entries) + [ToTopic(e)]
  {
    assert forall i :: 0 <= i < |entries| ==> (entries + [e])[i] == entries[i];
  }

  /** The number a string of decimal digits spells, read left to right. */
  function DecimalValue(s: string): nat
    requires forall i :: 0 <= i < |s| ==> '0' <= s[i] <= '9'
    decreases |s|
  {
    if s == [] then 0
    else DecimalValue(s[..|s| - 1]) * 10 + (s[|s| - 1] as int - '0' as int)
  }

  /** Decimal digits of a natural number, with no leading zero. */
  function NatDigits(n: nat): (s: string)
    ensures |s| >= 1
    ensures forall i :: 0 <= i < |s| ==> '0' <= s[i] <= '9'
    ensures DecimalValue(s) == n
    ensures s[0] == '0' ==> n == 0
    decreases n
  {
    var d := ['0' + (n % 10) as char];
    if n < 10 then d
    else
      var r := NatDigits(n / 10) + d;
      assert r[..|r| - 1] == NatDigits(n / 10);
      r
  }

  /** Distinct numbers have distinct digit strings. */
  lemma NatDigitsInjective(a: nat, b: nat)
    requires NatDigits(a) == NatDigits(b)
    ensures a == b
  {
  }

  /**
   * The array key PHP makes of a value used as an index: a string stays as
   * it is, an integer and a boolean become their decimal form (so `5` and
   * `"5"` name one key), NULL becomes "". An array or object is an illegal
   * offset: PHP warns and performs neither the assignment nor the appends.
   */
  function ArrayKey(v: Value): Option<string> {
    match v
    case Str(s) => Some(s)
    case Num(n) => Some(if n < 0 then "-" + NatDigits(-n) else NatDigits(n))
    case Bool(b) => Some(if b then "1" else "0")
    case Null => Some("")
    case _ => None
  }

  /** The key of an integer starts with a minus sign exactly when it is negative. */
  lemma ArrayKeySign(n: int)
    ensures |ArrayKey(Num(n)).value| >= 1 && (ArrayKey(Num(n)).value[0] == '-' <==> n < 0)
  {
  }

  /** Distinct integer names make distinct keys. */
  lemma ArrayKeyInjective(a: int, b: int)
    requires ArrayKey(Num(a)) == ArrayKey(Num(b))
    ensures a == b
  {
    ArrayKeySign(a);
    ArrayKeySign(b);
    if a < 0 && b < 0 {
      NegativeKey(a);
      NegativeKey(b);
      NatDigitsInjective(-a, -b);
    } else if a >= 0 && b >= 0 {
      NatDigitsInjective(a, b);
    }
  }

  lemma NegativeKey(n: int)
    requires n < 0
    ensures ArrayKey(Num(n)).value[1..] == NatDigits(-n)
  {
    var d := NatDigits(-n);
    var k := ArrayKey(Num(n)).value;
    assert k == ['-'] + d;
    assert k[1..] == d;
  }

  /**
   * The key of a natural number is the digit string that spells it, so a
   * string name of those digits names the same category.
   */
  lemma ArrayKeyNatural(n: nat)
    ensures ArrayKey(Num(n)) == ArrayKey(Str(NatDigits(n)))
    ensures DecimalValue(ArrayKey(Num(n)).value) == n
  {
  }

  /** TRUE names the same category as 1, FALSE as 0; NULL names the empty key. */
  lemma ArrayKeyScalars()
    ensures ArrayKey(Bool(true)) == ArrayKey(Num(1)) == Some("1")
    ensures ArrayKey(Bool(false)) == ArrayKey(Num(0)) == Some("0")
    ensures ArrayKey(Null) == ArrayKey(Str("")) == Some("")
  {
    assert NatDigits(1) == "1";
    assert NatDigits(0) == "0";
  }

  /** How the constructor treats one entry of `RelatedTopics`. */
  datatype Entry =
    | Category(name: string, topics: seq<Value>)
    | Uncategorized(topic: Topic)
    | IllegalName

  function Classify(subject: Value): (e: Entry)
    ensures e.Uncategorized? <==> Lookup(subject, "Name").None?
    ensures e.Uncategorized? ==> e.topic == ToTopic(subject)
    ensures e.Category? ==> ArrayKey(Lookup(subject, "Name").value) == Some(e.name)
                            && e.topics == Elements(Lookup(subject, "Topics"))
    ensures e.IllegalName? <==> Lookup(subject, "Name").Some? && ArrayKey(Lookup(subject, "Name").value).None?
  {
    match Lookup(subject, "Name")
    case None => Uncategorized(ToTopic(subject))
    case Some(name) =>
      match ArrayKey(name)
      case Some(key) => Category(key, Elements(Lookup(subject, "Topics")))
      case None => IllegalName
  }

  /** Every entry of a `RelatedTopics` list, classified. */
  function Entries(subjects: seq<Value>): (es: seq<Entry>)
    ensures |es| == |subjects|
    ensures forall i :: 0 <= i < |subjects| ==> es[i] == Classify(subjects[i])
  {
    seq(|subjects|, i requires 0 <= i < |subjects| => Classify(subjects[i]))
  }

  /**
   * The groups after one entry: a named entry resets its category to
   * exactly its own topics, an unnamed one is appended to General (which is
   * created on first use), and nothing else changes.
   */
  function GroupStep(g: Groups, e: Entry): Groups {
    match e
    case Category(k, ts) => Put(g, k, MapTopics(ts))
    case Uncategorized(t) =>
      if HasKey(g, General) then Put(g, General, Get(g, General).value + [t])
      else Put(g, General, [t])
    case IllegalName => g
  }

  /** Whether an entry writes to the group under `k`. */
  predicate Touches(e: Entry, k: string) {
    match e
    case Category(name, _) => name == k
    case Uncategorized(_) => k == General
    case IllegalName => false
  }

  /** A step keeps the keys unique and adds at most the key it touches. */
  lemma GroupStepKeys(g: Groups, e: Entry)
    ensures UniqueKeys(g) ==> UniqueKeys(GroupStep(g, e))
    ensures Keys(GroupStep(g, e)) ==
            Keys(g) + match e
                      case Category(k, _) => {k}
                      case Uncategorized(_) => {General}
                      case IllegalName => {}
  {
  }

  /** A named entry sets its category to exactly its own topics. */
  lemma GroupStepWrites(g: Groups, k: string, ts: seq<Value>)
    ensures Get(GroupStep(g, Category(k, ts)), k) == Some(MapTopics(ts))
  {
  }

  /** An unnamed entry is appended to General, which starts empty when missing. */
  lemma GroupStepAppendsGeneral(g: Groups, t: Topic)
    ensures Get(GroupStep(g, Uncategorized(t)), General) ==
            Some((if General in Keys(g) then Get(g, General).value else []) + [t])
  {
    if !HasKey(g, General) {
      assert [] + [t] == [t];
    }
  }

  /** A step that does not touch `k` leaves the group under `k` as it was. */
  lemma GroupStepUntouched(g: Groups, e: Entry, k: string)
    requires !Touches(e, k)
    ensures Get(GroupStep(g, e), k) == Get(g, k)
  {
  }

  /** The groups built from a classified `RelatedTopics` list, entry by entry. */
  function Grouped(es: seq<Entry>): Groups
    decreases |es|
  {
    if es == [] then []
    else GroupStep(Grouped(es[..|es| - 1]), es[|es| - 1])
  }

  /** Classifying one more subject adds one more grouping step. */
  lemma GroupedEntriesSnoc(subjects: seq<Value>, i: nat)
    requires i < |subjects|
    ensures Grouped(Entries(subjects[..i + 1])) == GroupStep(Grouped(Entries(subjects[..i])), Classify(subjects[i]))
  {
    var es := Entries(subjects[..i + 1]);
    assert es[..i] == Entries(subjects[..i]);
  }

  // ---------------------------------------------------------------------------
  // Properties of the grouping

  lemma {:induction false} GroupedUniqueKeys(es: seq<Entry>)
    ensures UniqueKeys(Grouped(es))
    decreases |es|
  {
    if es != [] {
      GroupedUniqueKeys(es[..|es| - 1]);
      GroupStepKeys(Grouped(es[..|es| - 1]), es[|es| - 1]);
    }
  }

  /** The category names the entries carry. */
  ghost function CategoryNames(es: seq<Entry>): set<string> {
    set i | 0 <= i < |es| && es[i].Category? :: es[i].name
  }

  ghost predicate HasUncategorized(es: seq<Entry>) {
    exists i :: 0 <= i < |es| && es[i].Uncategorized?
  }

  lemma CategoryNamesSnoc(es: seq<Entry>)
    requires es != []
    ensures var n := |es| - 1;
            CategoryNames(es) == CategoryNames(es[..n]) + (if es[n].Category? then {es[n].name} else {})
  {
    var n := |es| - 1;
    assert forall i :: 0 <= i < n ==> es[..n][i] == es[i];
  }

  lemma HasUncategorizedSnoc(es: seq<Entry>)
    requires es != []
    ensures var n := |es| - 1;
            HasUncategorized(es) <==> HasUncategorized(es[..n]) || es[n].Uncategorized?
  {
    var n := |es| - 1;
    assert forall i :: 0 <= i < n ==> es[..n][i] == es[i];
  }

  /**
   * The keys are exactly the names seen, plus General when some entry had
   * no name.
   */
  lemma {:induction false} GroupedKeys(es: seq<Entry>)
    ensures Keys(Grouped(es)) == CategoryNames(es) + (if HasUncategorized(es) then {General} else {})
    decreases |es|
  {
    if es != [] {
      var n := |es| - 1;
      GroupedKeys(es[..n]);
      CategoryNamesSnoc(es);
      HasUncategorizedSnoc(es);
      GroupStepKeys(Grouped(es[..n]), es[n]);
    }
  }

  /** The unnamed entries' topics, in encounter order. */
  function UncategorizedTopics(es: seq<Entry>): seq<Topic>
    decreases |es|
  {
    if es == [] then []
    else
      var rest := UncategorizedTopics(es[..|es| - 1]);
      match es[|es| - 1]
      case Uncategorized(t) => rest + [t]
      case _ => rest
  }

  ghost predicate NoCategoryNamed(es: seq<Entry>, name: string) {
    forall i :: 0 <= i < |es| ==> !(es[i].Category? && es[i].name == name)
  }

  /**
   * Unless some entry is itself named "General", the General group holds
   * exactly the unnamed entries in encounter order, and it exists only when
   * there is at least one of them.
   */
  lemma {:induction false} GeneralBucket(es: seq<Entry>)
    requires NoCategoryNamed(es, General)
    ensures Get(Grouped(es), General) ==
            if UncategorizedTopics(es) == [] then None else Some(UncategorizedTopics(es))
    decreases |es|
  {
    if es != [] {
      var n := |es| - 1;
      var init := es[..n];
      assert forall i :: 0 <= i < n ==> init[i] == es[i];
      GeneralBucket(init);
      match es[n]
      case Uncategorized(t) => GroupStepAppendsGeneral(Grouped(init), t);
      case _ => GroupStepUntouched(Grouped(init), es[n], General);
    }
  }

  /**
   * A named entry wins over every earlier one with the same name: when no
   * later entry touches that key, the category holds exactly its topics.
   */
  lemma {:induction false} LastCategoryWins(es: seq<Entry>, i: nat)
    requires i < |es| && es[i].Category?
    requires forall j :: i < j < |es| ==> !Touches(es[j], es[i].name)
    ensures Get(Grouped(es), es[i].name) == Some(MapTopics(es[i].topics))
    decreases |es|
  {
    var n := |es| - 1;
    var init := es[..n];
    var k := es[i].name;
    var g := Grouped(init);
    assert Grouped(es) == GroupStep(g, es[n]);
    if i < n {
      assert init[i] == es[i];
      assert forall j :: i < j < n ==> init[j] == es[j];
      LastCategoryWins(init, i);
      GroupStepUntouched(g, es[n], k);
      assert Get(Grouped(es), k) == Get(g, k);
    } else {
      assert es[n] == Category(k, es[i].topics);
      GroupStepWrites(g, k, es[i].topics);
      assert Get(Grouped(es), k) == Some(MapTopics(es[i].topics));
    }
  }

  // ---------------------------------------------------------------------------
  // Counting topics

  /** Number of topics over all groups. */
  function TopicCount(g: Groups): nat
    decreases |g|
  {
    if g == [] then 0 else TopicCount(g[..|g| - 1]) + |g[|g| - 1].1|
  }

  lemma {:induction false} TopicCountUpdate(g: Groups, i: nat, e: (string, seq<Topic>))
    requires i < |g|
    ensures TopicCount(g[i := e]) == TopicCount(g) - |g[i].1| + |e.1|
    decreases |g|
  {
    var n := |g| - 1;
    if i == n {
      assert g[i := e][..n] == g[..n];
    } else {
      assert g[i := e][..n] == g[..n][i := e];
      TopicCountUpdate(g[..n], i, e);
    }
  }

  /** Writing `v` under `k` removes the topics held there and adds those of `v`. */
  lemma TopicCountPut(g: Groups, k: string, v: seq<Topic>)
    ensures TopicCount(Put(g, k, v)) ==
            TopicCount(g) - (if k in Keys(g) then |Get(g, k).value| else 0) + |v|
  {
    var i := IndexOf(g, k);
    if i < 0 {
      assert (g + [(k, v)])[..|g|] == g;
    } else {
      TopicCountUpdate(g, i, (k, v));
    }
  }

  /** Number of topics the named entries carry. */
  function CategoryTopicCount(es: seq<Entry>): nat
    decreases |es|
  {
    if es == [] then 0
    else
      var rest := CategoryTopicCount(es[..|es| - 1]);
      match es[|es| - 1]
      case Category(_, ts) => rest + |ts|
      case _ => rest
  }

  ghost predicate DistinctCategories(es: seq<Entry>) {
    forall i, j :: 0 <= i < j < |es| && es[i].Category? && es[j].Category? ==> es[i].name != es[j].name
  }

  /**
   * When category names are distinct and none is "General", no topic is
   * lost: the groups hold the unnamed entries plus every category's topics.
   */
  lemma {:induction false} TopicsConserved(es: seq<Entry>)
    requires DistinctCategories(es) && NoCategoryNamed(es, General)
    ensures TopicCount(Grouped(es)) == |UncategorizedTopics(es)| + CategoryTopicCount(es)
    decreases |es|
  {
    if es != [] {
      var n := |es| - 1;
      var init := es[..n];
      var g := Grouped(init);
      assert forall i :: 0 <= i < n ==> init[i] == es[i];
      TopicsConserved(init);
      GroupedKeys(init);
      GeneralBucket(init);
      match es[n]
      case Category(k, ts) =>
        assert k !in CategoryNames(init);
        TopicCountPut(g, k, MapTopics(ts));
      case Uncategorized(t) =>
        if HasKey(g, General) {
          TopicCountPut(g, General, Get(g, General).value + [t]);
        } else {
          TopicCountPut(g, General, [t]);
        }
      case IllegalName =>
    }
  }
}
