/**
 * topic_manager.py: the topic registry (an insertion-ordered dict from topic
 * key to summary and content stack), key generation for new topics and chunk
 * classification.
 *
 * The generative model is not modelled: each operation that queries it takes
 * the reply text as an `Option<string>`, `None` standing for a call, or an
 * access to `response.text`, that raised. `json.loads` is the parameter
 * `parse` (see module Json). Prompts and console output are not modelled.
 */
module Topics {
  import opened Wrappers
  import opened Text
  import opened Json

  /** `TopicClassification`: both fields are whatever the reply's JSON held, `Null` for None. */
  datatype TopicClassification = TopicClassification(topicKey: Value, updatedDescription: Value)

  /** One registry entry: `{"summary": ..., "content_stack": [...]}`. */
  datatype Topic = Topic(summary: Value, contentStack: seq<Value>)

  /**
   * `self.topics`. A Python dict remembers insertion order, so the model keeps
   * the keys' order beside the map; overwriting a key keeps its position.
   */
  datatype Registry = Registry(topics: map<Value, Topic>, order: seq<Value>) {

    /** `order` lists every key once, and only keys; every key is hashable. */
    ghost predicate Valid() {
      && (forall i, j :: 0 <= i < j < |order| ==> order[i] != order[j])
      && (forall k :: k in topics <==> k in order)
      && (forall k :: k in topics ==> Hashable(k))
    }

    /** `self.topics[key] = topic` for a hashable key. */
    function Insert(key: Value, topic: Topic): Registry {
      Registry(topics[key := topic], if key in topics then order else order + [key])
    }

    /** The store at the end of `add_new_topic`: a fresh entry with an empty content stack. */
    function AddNew(key: Value, summary: Value): (r: Result<Registry, Exception>)
      ensures r.Failure? <==> !Hashable(key)
      ensures r.Failure? ==> r.error == TypeError
      ensures r.Success? ==> key in r.value.topics && r.value.topics[key] == Topic(summary, [])
    {
      if !Hashable(key) then Failure(TypeError) else Success(Insert(key, Topic(summary, [])))
    }

    /** `update_topic`: replaces the summary of an existing topic; a missing key raises KeyError. */
    function Update(key: Value, summary: Value): (r: Result<Registry, Exception>)
      ensures r.Failure? <==> !Hashable(key) || key !in topics
      ensures r.Failure? ==> r.error == if Hashable(key) then KeyError else TypeError
      ensures r.Success? ==> r.value.order == order && r.value.topics.Keys == topics.Keys
    {
      if !Hashable(key) then Failure(TypeError)
      else if key !in topics then Failure(KeyError)
      else Success(Registry(topics[key := topics[key].(summary := summary)], order))
    }

    /** `extend_topic`: pushes onto an existing topic's content stack; a missing key raises ValueError. */
    function Extend(key: Value, content: Value): (r: Result<Registry, Exception>)
      ensures r.Failure? <==> !Hashable(key) || key !in topics
      ensures r.Failure? ==> r.error == if Hashable(key) then ValueError else TypeError
      ensures r.Success? ==> r.value.order == order && r.value.topics.Keys == topics.Keys
    {
      if !Hashable(key) then Failure(TypeError)
      else if key !in topics then Failure(ValueError)
      else Success(Registry(topics[key := topics[key].(contentStack := topics[key].contentStack + [content])], order))
    }

    /** `get_topic_content`. */
    function Content(key: Value): (r: Result<seq<Value>, Exception>)
      ensures r.Failure? <==> !Hashable(key) || key !in topics
      ensures r.Failure? ==> r.error == if Hashable(key) then ValueError else TypeError
    {
      if !Hashable(key) then Failure(TypeError)
      else if key !in topics then Failure(ValueError)
      else Success(topics[key].contentStack)
    }

    /** `get_topic_summary`. */
    function Summary(key: Value): (r: Result<Value, Exception>)
      ensures r.Failure? <==> !Hashable(key) || key !in topics
      ensures r.Failure? ==> r.error == if Hashable(key) then ValueError else TypeError
    {
      if !Hashable(key) then Failure(TypeError)
      else if key !in topics then Failure(ValueError)
      else Success(topics[key].summary)
    }

    /** `list_topics`: every key with its summary, and nothing else. */
    function Summaries(): (r: map<Value, Value>)
      ensures r.Keys == topics.Keys
      ensures forall k :: k in r ==> r[k] == topics[k].summary
    {
      map k | k in topics :: topics[k].summary
    }

    /** The line `list_topics_string` writes for one key. */
    function TopicLine(key: Value): string {
      Display(key) + ": " + (if key in topics then Display(topics[key].summary) else "")
    }

    function TopicLines(): (r: seq<string>)
      ensures |r| == |order|
      ensures forall i :: 0 <= i < |order| ==> r[i] == TopicLine(order[i])
    {
      seq(|order|, i requires 0 <= i < |order| => TopicLine(order[i]))
    }

    /** What `list_topics_string` returns. */
    function Listing(): string {
      if topics == map[] then "No topics available" else Join(TopicLines(), "\n")
    }
  }

  /** The registry a registry operation leaves behind: the new one, or the old one when it raised. */
  function Commit(before: Registry, r: Result<Registry, Exception>): Registry {
    if r.Success? then r.value else before
  }

  /** Whether a registry operation returned or raised. */
  function Status(r: Result<Registry, Exception>): Outcome<Exception> {
    if r.Success? then Pass else Fail(r.error)
  }

  /**
   * Where `add_new_topic` and `classify_chunk` look for JSON in a stripped
   * reply: inside the first "```json" fence, else inside the first "```"
   * fence, else the whole reply. The closing fence is the next "```"; when
   * there is none, `find` gives -1 and the slice ends one character short.
   */
  function FenceCandidate(t: string): string {
    if Contains(t, "```json") then
      var start := FindFrom(t, "```json", 0) + 7;
      Strip(Slice(t, start, FindFrom(t, "```", start)))
    else if Contains(t, "```") then
      var start := FindFrom(t, "```", 0) + 3;
      Strip(Slice(t, start, FindFrom(t, "```", start)))
    else t
  }

  /**
   * The key `add_new_topic` derives from the reply text: the JSON object's
   * "topic_key" (None when absent); the stripped reply itself when the JSON
   * does not decode; AttributeError when it decodes to something without `get`.
   */
  function NewTopicKey(replyText: string, parse: string -> Option<Value>): (r: Result<Value, Exception>)
    ensures var decoded := parse(FenceCandidate(Strip(replyText)));
      && (r.Failure? <==> decoded.Some? && !decoded.value.Obj?)
      && (r.Failure? ==> r.error == AttributeError)
      && (decoded.None? ==> r == Success(Str(Strip(replyText))))
      && (decoded.Some? && decoded.value.Obj? ==> r == Success(Get(decoded.value.fields, "topic_key")))
  {
    var t := Strip(replyText);
    match parse(FenceCandidate(t))
    case None =>
      StripIdempotent(replyText);
      Success(Str(Strip(t)))
    case Some(Obj(fields)) => Success(Get(fields, "topic_key"))
    case Some(_) => Failure(AttributeError)
  }

  /** The registry after `add_new_topic(summary)` given the model's reply. */
  function AfterAddNewTopic(reg: Registry, summary: Value, reply: Option<string>, parse: string -> Option<Value>): Result<Registry, Exception> {
    match reply
    case None => Failure(CollaboratorFailure)
    case Some(text) =>
      match NewTopicKey(text, parse)
      case Failure(e) => Failure(e)
      case Success(key) => reg.AddNew(key, summary)
  }

  /** `classify_chunk`: any failure, caught by its handlers, gives (None, None). */
  function ClassifyChunk(reply: Option<string>, parse: string -> Option<Value>): (r: TopicClassification)
    ensures reply.None? ==> r == TopicClassification(Null, Null)
    ensures reply.Some? ==>
      var decoded := parse(FenceCandidate(Strip(reply.value)));
      && (decoded.None? ==> r == TopicClassification(Null, Null))
      && (decoded.Some? && !decoded.value.Obj? ==> r == TopicClassification(Null, Null))
      && (decoded.Some? && decoded.value.Obj? ==>
            r == TopicClassification(Get(decoded.value.fields, "topic_key"), Get(decoded.value.fields, "updated_description")))
  {
    match reply
    case None => TopicClassification(Null, Null)
    case Some(text) =>
      match parse(FenceCandidate(Strip(text)))
      case Some(Obj(fields)) => TopicClassification(Get(fields, "topic_key"), Get(fields, "updated_description"))
      case _ => TopicClassification(Null, Null)
  }

  // ---------------------------------------------------------------------
  // Registry properties

  /** Inserting keeps the registry well formed; a new key goes last, an old key keeps its place. */
  lemma InsertValid(reg: Registry, key: Value, topic: Topic)
    requires reg.Valid() && Hashable(key)
    ensures reg.Insert(key, topic).Valid()
    ensures key in reg.topics ==> reg.Insert(key, topic).order == reg.order
    ensures key !in reg.topics ==> reg.Insert(key, topic).order == reg.order + [key]
  {
    if key !in reg.topics {
      var o := reg.order + [key];
      forall i, j | 0 <= i < j < |o| ensures o[i] != o[j] {
        if j == |reg.order| {
          assert o[i] == reg.order[i];
          assert reg.order[i] in reg.topics;
        }
      }
    }
  }

  /** `add_new_topic`'s store: the key maps to a fresh entry; every other entry is untouched. */
  lemma AddNewEffect(reg: Registry, key: Value, summary: Value)
    requires reg.Valid() && Hashable(key)
    ensures var r := reg.AddNew(key, summary);
      && r.Success?
      && r.value.Valid()
      && r.value.Summary(key) == Success(summary)
      && r.value.Content(key) == Success([])
      && (forall k :: k != key ==> r.value.Summary(k) == reg.Summary(k) && r.value.Content(k) == reg.Content(k))
      && |r.value.order| == |reg.order| + (if key in reg.topics then 0 else 1)
  {
    InsertValid(reg, key, Topic(summary, []));
  }

  /** After `update_topic` the summary reads back; contents and the other summaries are untouched. */
  lemma UpdateEffect(reg: Registry, key: Value, summary: Value)
    requires reg.Valid()
    requires reg.Update(key, summary).Success?
    ensures var r := reg.Update(key, summary).value;
      && r.Valid()
      && r.Summary(key) == Success(summary)
      && (forall k :: r.Content(k) == reg.Content(k))
      && (forall k :: k != key ==> r.Summary(k) == reg.Summary(k))
  {
  }

  /** After `extend_topic` the content stack holds one more item, on top; nothing else changes. */
  lemma ExtendEffect(reg: Registry, key: Value, content: Value)
    requires reg.Valid()
    requires reg.Extend(key, content).Success?
    ensures var r := reg.Extend(key, content).value;
      && r.Valid()
      && r.Content(key) == Success(reg.Content(key).value + [content])
      && (forall k :: r.Summary(k) == reg.Summary(k))
      && (forall k :: k != key ==> r.Content(k) == reg.Content(k))
  {
  }

  lemma {:induction false} DistinctCardinality(xs: seq<Value>)
    requires forall i, j :: 0 <= i < j < |xs| ==> xs[i] != xs[j]
    ensures |set x | x in xs| == |xs|
  {
    if xs != [] {
      var init := xs[..|xs| - 1];
      var last := xs[|xs| - 1];
      DistinctCardinality(init);
      assert (set x | x in xs) == (set x | x in init) + {last};
      forall i | 0 <= i < |init| ensures init[i] != last {
        assert init[i] == xs[i];
      }
      assert last !in init;
    }
  }

  /** In a well-formed registry there are exactly as many keys as listed positions. */
  lemma OrderCoversKeys(reg: Registry)
    requires reg.Valid()
    ensures |reg.topics| == |reg.order|
    ensures reg.topics == map[] <==> reg.order == []
  {
    DistinctCardinality(reg.order);
    assert reg.topics.Keys == set x | x in reg.order;
  }

  lemma JoinStartsWithFirst(xs: seq<string>, sep: string)
    requires xs != []
    ensures xs[0] <= Join(xs, sep)
  {
  }

  /**
   * `list_topics_string` says "No topics available" exactly when there are no
   * topics; otherwise it holds one line per topic, in insertion order, as long
   * as no key or summary displays with a newline.
   */
  lemma ListingLines(reg: Registry)
    requires reg.Valid()
    ensures reg.Listing() == "No topics available" <==> reg.topics == map[]
    ensures reg.topics != map[] && (forall i :: 0 <= i < |reg.order| ==> '\n' !in reg.TopicLine(reg.order[i])) ==>
      Split(reg.Listing(), '\n') == reg.TopicLines() && |Split(reg.Listing(), '\n')| == |reg.topics|
  {
    OrderCoversKeys(reg);
    if reg.topics != map[] {
      ListingHasColon(reg.TopicLines(), Display(reg.order[0]), reg.Listing());
      if forall i :: 0 <= i < |reg.order| ==> '\n' !in reg.TopicLine(reg.order[i]) {
        SplitJoin(reg.TopicLines(), '\n');
      }
    }
  }

  /** A listing whose first line starts with a display and ": " contains a colon, unlike the empty message. */
  lemma ListingHasColon(lines: seq<string>, key: string, listing: string)
    requires lines != [] && listing == Join(lines, "\n")
    requires |lines[0]| > |key| && lines[0][|key|] == ':'
    ensures listing != "No topics available"
  {
    JoinStartsWithFirst(lines, "\n");
    assert listing[|key|] == ':';
    assert ':' !in "No topics available";
  }

  // ---------------------------------------------------------------------
  // Fence extraction

  /** `find` returns `p` when `p` is an occurrence and nothing in between is. */
  lemma FindFromIs(s: string, sub: string, start: nat, p: int)
    requires start <= p && OccursAt(s, sub, p)
    requires forall i :: start <= i < p ==> !OccursAt(s, sub, i)
    ensures FindFrom(s, sub, start) == p
  {
  }

  /** No occurrence of `sub` starts in `s[lo..hi]` when no position there holds `sub`'s first character. */
  lemma NoOccurrenceIn(s: string, sub: string, lo: int, hi: int)
    requires sub != []
    requires forall i :: lo <= i < hi && 0 <= i < |s| ==> s[i] != sub[0]
    ensures forall i :: lo <= i < hi ==> !OccursAt(s, sub, i)
  {
    forall i | lo <= i < hi ensures !OccursAt(s, sub, i) {
      if 0 <= i && i + |sub| <= |s| {
        assert s[i..i + |sub|][0] == s[i];
      }
    }
  }

  /** A character missing from an infix is at none of its positions. */
  lemma CharAbsent(t: string, lo: int, hi: int, c: char)
    requires 0 <= lo <= hi <= |t| && c !in t[lo..hi]
    ensures forall i :: lo <= i < hi ==> t[i] != c
  {
    forall i | lo <= i < hi ensures t[i] != c {
      assert t[lo..hi][i - lo] == t[i];
    }
  }

  /**
   * The first "```json" of `t` is at `a` and the first "```" after it at `q`:
   * the text between the two fences is extracted, stripped.
   */
  lemma FenceExtractsJsonBody(t: string, a: nat, q: int)
    requires OccursAt(t, "```json", a) && forall i :: 0 <= i < a ==> !OccursAt(t, "```json", i)
    requires a + 7 <= q && OccursAt(t, "```", q) && forall i :: a + 7 <= i < q ==> !OccursAt(t, "```", i)
    ensures FenceCandidate(t) == Strip(t[a + 7..q])
  {
    FindFromIs(t, "```json", 0, a);
    FindFromIs(t, "```", a + 7, q);
    assert Contains(t, "```json");
    assert Slice(t, a + 7, q) == t[a + 7..q];
  }

  /** The same for a bare "```" fence first found at `a`, when "```json" occurs nowhere. */
  lemma FenceExtractsBareBody(t: string, a: nat, q: int)
    requires !Contains(t, "```json")
    requires OccursAt(t, "```", a) && forall i :: 0 <= i < a ==> !OccursAt(t, "```", i)
    requires a + 3 <= q && OccursAt(t, "```", q) && forall i :: a + 3 <= i < q ==> !OccursAt(t, "```", i)
    ensures FenceCandidate(t) == Strip(t[a + 3..q])
  {
    FindFromIs(t, "```", 0, a);
    FindFromIs(t, "```", a + 3, q);
    assert Contains(t, "```");
    assert Slice(t, a + 3, q) == t[a + 3..q];
  }

  /**
   * The first "```json" is at `a` and no "```" follows it: `find` gives -1,
   * so the slice ends one character short and the reply's last character
   * is lost (nothing is left when the fence ends the reply).
   */
  lemma UnclosedFenceDropsLastChar(t: string, a: nat)
    requires OccursAt(t, "```json", a) && forall i :: 0 <= i < a ==> !OccursAt(t, "```json", i)
    requires forall i :: a + 7 <= i ==> !OccursAt(t, "```", i)
    ensures FenceCandidate(t) == Strip(if a + 7 < |t| then t[a + 7..|t| - 1] else "")
  {
    FindFromIs(t, "```json", 0, a);
    assert Contains(t, "```json");
    assert FindFrom(t, "```", a + 7) == -1;
    assert ClampIndex(-1, |t|) == |t| - 1;
  }

  /** The same for a bare "```" first found at `a`, when "```json" occurs nowhere and no "```" follows. */
  lemma UnclosedBareFenceDropsLastChar(t: string, a: nat)
    requires !Contains(t, "```json")
    requires OccursAt(t, "```", a) && forall i :: 0 <= i < a ==> !OccursAt(t, "```", i)
    requires forall i :: a + 3 <= i ==> !OccursAt(t, "```", i)
    ensures FenceCandidate(t) == Strip(if a + 3 < |t| then t[a + 3..|t| - 1] else "")
  {
    FindFromIs(t, "```", 0, a);
    assert Contains(t, "```");
    assert FindFrom(t, "```", a + 3) == -1;
    assert ClampIndex(-1, |t|) == |t| - 1;
  }

  /** A reply with no "```" is handed to the parser whole. */
  lemma NoFenceIsWholeReply(t: string)
    requires !Contains(t, "```")
    ensures FenceCandidate(t) == t
  {
    forall i | 0 <= i ensures !OccursAt(t, "```json", i) {
      assert !OccursAt(t, "```", i);
      if i + 7 <= |t| {
        assert t[i..i + 7][..3] == t[i..i + 3];
      }
    }
  }

  /** A concrete reply: a "```json" fence around an object, with text before and after it. */
  lemma FencedReplyExample()
    ensures FenceCandidate("Here:\n```json\n{}\n```\nDone") == "{}"
  {
    var t := "Here:\n```json\n{}\n```\nDone";
    assert t[6..13] == "```json";
    assert t[17..20] == "```";
    assert t[13..17] == "\n{}\n";
    assert forall i :: 0 <= i < 6 ==> t[i] != '`';
    assert forall i :: 13 <= i < 17 ==> t[i] != '`';
    NoOccurrenceIn(t, "```json", 0, 6);
    NoOccurrenceIn(t, "```", 13, 17);
    FenceExtractsJsonBody(t, 6, 17);
    StripNewlines();
  }

  lemma StripNewlines()
    ensures Strip("\n{}\n") == "{}"
  {
    var s := "\n{}\n";
    assert SkipSpace(s, 1) == 1;
    assert SkipSpace(s, 0) == 1;
    assert SkipSpaceBack(s, 1, 3) == 3;
    assert SkipSpaceBack(s, 1, 4) == 3;
    assert s[1..3] == "{}";
  }

  /** A reply whose first "```json" fence holds an object classifies with that object's two members. */
  lemma ClassifyFencedReply(text: string, a: nat, q: int, parse: string -> Option<Value>, fields: seq<(string, Value)>)
    requires var t := Strip(text);
      && OccursAt(t, "```json", a) && (forall i :: 0 <= i < a ==> !OccursAt(t, "```json", i))
      && a + 7 <= q && OccursAt(t, "```", q) && (forall i :: a + 7 <= i < q ==> !OccursAt(t, "```", i))
    requires parse(Strip(Strip(text)[a + 7..q])) == Some(Obj(fields))
    ensures ClassifyChunk(Some(text), parse) ==
      TopicClassification(Get(fields, "topic_key"), Get(fields, "updated_description"))
  {
    FenceExtractsJsonBody(Strip(text), a, q);
  }

  /** A reply the parser rejects becomes the topic key itself, stripped. */
  lemma UndecodableReplyIsKey(reg: Registry, summary: Value, text: string, parse: string -> Option<Value>)
    requires reg.Valid()
    requires parse(FenceCandidate(Strip(text))).None?
    ensures var r := AfterAddNewTopic(reg, summary, Some(text), parse);
      r.Success? && r.value.Summary(Str(Strip(text))) == Success(summary)
  {
    AddNewEffect(reg, Str(Strip(text)), summary);
  }

  /** `add_new_topic` raises exactly when the call fails, the JSON has no `get`, or the key is unhashable. */
  lemma AddNewTopicFailures(reg: Registry, summary: Value, reply: Option<string>, parse: string -> Option<Value>)
    ensures AfterAddNewTopic(reg, summary, reply, parse).Failure? <==>
      || reply.None?
      || NewTopicKey(reply.value, parse).Failure?
      || !Hashable(NewTopicKey(reply.value, parse).value)
  {
  }

  // ---------------------------------------------------------------------
  // The manager object

  class TopicManager {
    var topics: map<Value, Topic>
    var order: seq<Value>
    /** `json.loads`, left uninterpreted. */
    const parse: string -> Option<Value>

    function Model(): Registry
      reads this
    {
      Registry(topics, order)
    }

    ghost predicate Valid()
      reads this
    {
      Model().Valid()
    }

    constructor(parse: string -> Option<Value>)
      ensures Valid() && Model() == Registry(map[], []) && this.parse == parse
    {
      topics := map[];
      order := [];
      this.parse := parse;
    }

    method AddNewTopic(summary: Value, reply: Option<string>) returns (r: Outcome<Exception>)
      requires Valid()
      modifies this
      ensures Valid()
      ensures Model() == Commit(old(Model()), AfterAddNewTopic(old(Model()), summary, reply, parse))
      ensures r == Status(AfterAddNewTopic(old(Model()), summary, reply, parse))
    {
      if reply.None? {
        return Fail(CollaboratorFailure);
      }
      var key := NewTopicKey(reply.value, parse);
      if key.Failure? {
        return Fail(key.error);
      }
      var topicKey := key.value;
      if !Hashable(topicKey) {
        return Fail(TypeError);
      }
      InsertValid(Model(), topicKey, Topic(summary, []));
      if topicKey !in topics {
        order := order + [topicKey];
      }
      topics := topics[topicKey := Topic(summary, [])];
      r := Pass;
    }

    function ListTopics(): (r: map<Value, Value>)
      reads this
      ensures r.Keys == topics.Keys
      ensures forall k :: k in r ==> r[k] == topics[k].summary
    {
      Model().Summaries()
    }

    method ListTopicsString() returns (r: string)
      ensures r == Model().Listing()
    {
      if topics == map[] {
        return "No topics available";
      }
      var lines: seq<string> := [];
      var i := 0;
      while i < |order|
        invariant 0 <= i <= |order|
        invariant lines == Model().TopicLines()[..i]
      {
        var key := order[i];
        lines := lines + [Display(key) + ": " + (if key in topics then Display(topics[key].summary) else "")];
        i := i + 1;
      }
      assert Model().TopicLines()[..|order|] == Model().TopicLines();
      r := Join(lines, "\n");
    }

    method UpdateTopic(topicKey: Value, summary: Value) returns (r: Outcome<Exception>)
      requires Valid()
      modifies this
      ensures Valid()
      ensures Model() == Commit(old(Model()), old(Model()).Update(topicKey, summary))
      ensures r == Status(old(Model()).Update(topicKey, summary))
    {
      if !Hashable(topicKey) {
        return Fail(TypeError);
      }
      if topicKey !in topics {
        return Fail(KeyError);
      }
      topics := topics[topicKey := topics[topicKey].(summary := summary)];
      r := Pass;
    }

    method ExtendTopic(topicKey: Value, content: Value) returns (r: Outcome<Exception>)
      requires Valid()
      modifies this
      ensures Valid()
      ensures Model() == Commit(old(Model()), old(Model()).Extend(topicKey, content))
      ensures r == Status(old(Model()).Extend(topicKey, content))
    {
      if !Hashable(topicKey) {
        return Fail(TypeError);
      }
      if topicKey !in topics {
        return Fail(ValueError);
      }
      topics := topics[topicKey := topics[topicKey].(contentStack := topics[topicKey].contentStack + [content])];
      r := Pass;
    }

    function GetTopicContent(topicKey: Value): (r: Result<seq<Value>, Exception>)
      reads this
      ensures r.Failure? <==> !Hashable(topicKey) || topicKey !in topics
      ensures r.Failure? ==> r.error == if Hashable(topicKey) then ValueError else TypeError
      ensures r.Success? ==> r.value == topics[topicKey].contentStack
    {
      Model().Content(topicKey)
    }

    function GetTopicSummary(topicKey: Value): (r: Result<Value, Exception>)
      reads this
      ensures r.Failure? <==> !Hashable(topicKey) || topicKey !in topics
      ensures r.Failure? ==> r.error == if Hashable(topicKey) then ValueError else TypeError
      ensures r.Success? ==> r.value == topics[topicKey].summary
    {
      Model().Summary(topicKey)
    }
  }
}
