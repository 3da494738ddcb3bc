/**
 Metric lines: what a reporter prints to its output, and what the forwarder reads back.
 Numbers are printed by the runtime, so their texts are parameters.  The reader of the statsd
 part is a model of the external parser: it splits at the delimiters.
 */
module MetricLines {
  import opened Sequences
  import opened Wrappers

  // ---------------------------------------------------------------- splitting

  function IndexOf(s: string, d: char): (i: nat)
    requires d in s
    ensures i < |s| && s[i] == d && forall j | 0 <= j < i :: s[j] != d
  {
    if s[0] == d then 0 else 1 + IndexOf(s[1..], d)
  }

  function Split(s: string, d: char): (parts: seq<string>)
    ensures parts != []
    decreases |s|
  {
    if d !in s then [s] else
    var i := IndexOf(s, d);
    [s[..i]] + Split(s[i + 1..], d)
  }

  // At most `count` parts: the last one is the rest.
  function SplitN(s: string, count: nat, d: char): seq<string>
    requires count > 0
  {
    if count == 1 || d !in s then [s] else
    var i := IndexOf(s, d);
    [s[..i]] + SplitN(s[i + 1..], count - 1, d)
  }

  function Delimited(parts: seq<string>, d: char): string
    requires parts != []
  {
    if |parts| == 1 then parts[0] else Delimited(parts[..|parts| - 1], d) + [d] + parts[|parts| - 1]
  }

  lemma FirstPart(a: string, d: char, b: string)
    requires d !in a
    ensures var s := a + [d] + b; d in s && IndexOf(s, d) == |a| && s[..|a|] == a && s[|a| + 1..] == b
  {
    var s := a + [d] + b;
    assert s[|a|] == d;
    var i := IndexOf(s, d);
    assert forall j | 0 <= j < |a| :: s[j] == a[j] != d;
  }

  lemma SplitCons(a: string, d: char, b: string)
    requires d !in a
    ensures Split(a + [d] + b, d) == [a] + Split(b, d)
  {
    FirstPart(a, d, b);
  }

  lemma AtIndex(a: string, i: nat, d: char, b: string)
    requires i < |a| && a[i] == d
    ensures a == a[..i] + [d] + a[i + 1..]
    ensures a + [d] + b == a[..i] + [d] + (a[i + 1..] + [d] + b)
  {
  }

  lemma {:induction false} SplitSnoc(a: string, d: char, b: string)
    requires d !in b
    ensures Split(a + [d] + b, d) == Split(a, d) + [b]
    decreases |a|
  {
    if d !in a {
      SplitCons(a, d, b);
    } else {
      var i := IndexOf(a, d);
      var head, tail := a[..i], a[i + 1..];
      AtIndex(a, i, d, b);
      SplitCons(head, d, tail);
      SplitCons(head, d, tail + [d] + b);
      SplitSnoc(tail, d, b);
      Regroup([head], Split(tail, d), [b]);
    }
  }

  lemma {:induction false} SplitJoin(parts: seq<string>, d: char)
    requires parts != [] && forall i | 0 <= i < |parts| :: d !in parts[i]
    ensures Split(Delimited(parts, d), d) == parts
    decreases |parts|
  {
    if |parts| == 1 {
      assert parts == [parts[0]];
    } else {
      var front, last := parts[..|parts| - 1], parts[|parts| - 1];
      assert parts == front + [last];
      SplitJoin(front, d);
      SplitSnoc(Delimited(front, d), d, last);
    }
  }

  lemma {:induction false} JoinCons(part: string, parts: seq<string>, d: char)
    requires parts != []
    ensures Delimited([part] + parts, d) == part + [d] + Delimited(parts, d)
    decreases |parts|
  {
    var all := [part] + parts;
    if |parts| == 1 {
      assert all[..1] == [part];
    } else {
      assert all[..|all| - 1] == [part] + parts[..|parts| - 1];
      JoinCons(part, parts[..|parts| - 1], d);
      var last := parts[|parts| - 1];
      assert part + [d] + Delimited(parts[..|parts| - 1], d) + [d] + last == part + [d] + (Delimited(parts[..|parts| - 1], d) + [d] + last);
    }
  }

  lemma {:induction false} JoinSplit(s: string, d: char)
    ensures Delimited(Split(s, d), d) == s
    decreases |s|
  {
    if d in s {
      var i := IndexOf(s, d);
      JoinSplit(s[i + 1..], d);
      JoinCons(s[..i], Split(s[i + 1..], d), d);
      assert s == s[..i] + [d] + s[i + 1..];
    }
  }

  // ---------------------------------------------------------------- messages

  datatype MetricType = Gauge | Counter | Histogram

  // A number and the text it is printed as; no value stands for NaN and the infinities.
  datatype Float = Float(text: string, value: Option<real>)

  datatype TagPair = TagPair(key: string, value: string)

  datatype Message = Message(name: string, value: string, kind: MetricType, rate: Option<string>, tags: seq<TagPair>)

  datatype MetricError = InvalidCharacter | InvalidSampleRate

  predicate Invalid(c: char) {
    c == '|' || c == '#' || c == ',' || c == '=' || c == ':'
  }

  predicate HasInvalid(s: string) {
    exists i | 0 <= i < |s| :: Invalid(s[i])
  }

  function StatsdType(kind: MetricType): string {
    match kind
    case Gauge => "g"
    case Counter => "c"
    case Histogram => "h"
  }

  predicate RateOk(rate: Float) {
    rate.value.Some? && 0.0 <= rate.value.value < 1.0
  }

  predicate BadRate(kind: MetricType, rate: Option<Float>) {
    kind.Counter? && rate.Some? && !RateOk(rate.value)
  }

  predicate TagOk(tag: TagPair) {
    !HasInvalid(tag.key) && !HasInvalid(tag.value)
  }

  predicate TagsOk(tags: seq<TagPair>) {
    forall i | 0 <= i < |tags| :: TagOk(tags[i])
  }

  function TagText(tag: TagPair): string {
    tag.key + ":" + tag.value
  }

  function TagTexts(tags: seq<TagPair>): (texts: seq<string>)
    ensures |texts| == |tags| && forall i | 0 <= i < |tags| :: texts[i] == TagText(tags[i])
  {
    seq(|tags|, i requires 0 <= i < |tags| => TagText(tags[i]))
  }

  function Listed(tags: seq<TagPair>): string {
    if tags == [] then "" else Delimited(TagTexts(tags), ',')
  }

  function TagSection(tags: seq<TagPair>): string {
    if tags == [] then "" else "|#" + Listed(tags)
  }

  // The optional fields.
  function TailFields(m: Message): seq<string> {
    (if m.rate.Some? then ["@" + m.rate.value] else []) + (if m.tags != [] then ["#" + Listed(m.tags)] else [])
  }

  function Fields(m: Message): seq<string> {
    [m.name + ":" + m.value, StatsdType(m.kind)] + TailFields(m)
  }

  function StatsdText(m: Message): string {
    Delimited(Fields(m), '|')
  }

  // What is reported: only counters have a rate.
  function Reported(name: string, value: Float, kind: MetricType, rate: Option<Float>, tags: seq<TagPair>): Message {
    Message(name, value.text, kind, if kind.Counter? && rate.Some? then Some(rate.value.text) else None, tags)
  }

  // Four parts of a line.
  function Record(first: string, service: string, time: string, rest: string): string {
    first + ['|'] + (service + ['|'] + (time + ['|'] + rest))
  }

  function Line(service: string, time: string, m: Message): string {
    Record("MONITORING", service, time, StatsdText(m) + "\n")
  }

  lemma RecordText(first: string, service: string, time: string, rest: string)
    ensures first + "|" + service + "|" + time + "|" + rest + "\n" == Record(first, service, time, rest + "\n")
  {
    assert time + "|" + (rest + "\n") == time + "|" + rest + "\n";
    assert service + "|" + (time + "|" + rest + "\n") == service + "|" + time + "|" + rest + "\n";
  }

  class MetricReporter {
    var buffer: string
    var out: string
    const service: string

    constructor (service: string)
      ensures this.service == service && buffer == "" && out == ""
    {
      this.service, buffer, out := service, "", "";
    }

    method WriteToBuf(tag: TagPair) returns (r: Result<(), MetricError>)
      modifies this`buffer
      ensures r == if TagOk(tag) then Ok(()) else Err(InvalidCharacter)
      ensures buffer == old(buffer) + if TagOk(tag) then TagText(tag) else ""
    {
      if HasInvalid(tag.key) {
        return Err(InvalidCharacter);
      }
      if HasInvalid(tag.value) {
        return Err(InvalidCharacter);
      }
      buffer := buffer + (tag.key + ":" + tag.value);
      return Ok(());
    }

    method WriteNextTag(tag: TagPair, firstTag: bool, ghost base: string, ghost done: seq<TagPair>)
      returns (r: Result<(), MetricError>)
      requires buffer == base + Listed(done) && (firstTag <==> done == [])
      modifies this`buffer
      ensures r == if TagOk(tag) then Ok(()) else Err(InvalidCharacter)
      ensures r.Ok? ==> buffer == base + Listed(done + [tag])
    {
      TagsSnoc(base, done, tag);
      if !firstTag {
        buffer := buffer + ",";
      }
      r := WriteToBuf(tag);
    }

    // The tag section, if there is one.
    method WriteTags(tags: seq<TagPair>) returns (r: Result<(), MetricError>)
      modifies this`buffer
      ensures r == if TagsOk(tags) then Ok(()) else Err(InvalidCharacter)
      ensures r.Ok? ==> buffer == old(buffer) + TagSection(tags)
    {
      if tags == [] {
        return Ok(());
      }
      var firstTag := true;
      buffer := buffer + "|#";
      ghost var base := buffer;
      TakeAll(tags);
      for i := 0 to |tags|
        invariant firstTag <==> i == 0
        invariant TagsOk(tags[..i])
        invariant buffer == base + Listed(tags[..i])
      {
        TakeNext(tags, i);
        TagsOkNext(tags, i);
        r := WriteNextTag(tags[i], firstTag, base, tags[..i]);
        firstTag := false;
        if r.Err? {
          return;
        }
      }
      SectionText(old(buffer), tags);
      return Ok(());
    }

    method StatsdFormat(name: string, value: Float, kind: MetricType, rate: Option<Float>, tags: seq<TagPair>)
      returns (r: Result<(), MetricError>)
      modifies this`buffer
      ensures r.Ok? <==> !HasInvalid(name) && !BadRate(kind, rate) && TagsOk(tags)
      ensures r == Err(InvalidSampleRate) <==> !HasInvalid(name) && BadRate(kind, rate)
      ensures r.Ok? ==> buffer == StatsdText(Reported(name, value, kind, rate, tags))
      ensures r.Ok? ==> ReadsAs(buffer, name, value, kind, rate, tags)
    {
      buffer := "";
      if HasInvalid(name) {
        return Err(InvalidCharacter);
      }
      buffer := buffer + (name + ":" + value.text + "|" + StatsdType(kind));
      if kind.Counter? && rate.Some? {
        if RateOk(rate.value) {
          buffer := buffer + "|@" + rate.value.text;
        } else {
          return Err(InvalidSampleRate);
        }
      }
      ghost var m := Reported(name, value, kind, rate, []);
      TextWithoutTags(m);
      assert buffer == StatsdText(m);
      r := WriteTags(tags);
      TextWithTags(m, tags);
      if r.Ok? {
        ReportedReadsBack(name, value, kind, rate, tags);
      }
    }

    method WriteMetric(name: string, value: Float, kind: MetricType, rate: Option<Float>, tags: seq<TagPair>, now: string)
      returns (r: Result<(), MetricError>)
      modifies this
      ensures r.Ok? <==> !HasInvalid(name) && !BadRate(kind, rate) && TagsOk(tags)
      ensures out == old(out) + if r.Ok? then Line(service, now, Reported(name, value, kind, rate, tags)) else ""
    {
      r := StatsdFormat(name, value, kind, rate, tags);
      if r.Err? {
        return;
      }
      RecordText("MONITORING", service, now, buffer);
      out := out + ("MONITORING" + "|" + service + "|" + now + "|" + buffer + "\n");
    }
  }

  // What is refused: a reserved character in the name or in a tag, or a rate of a counter
  // that is not at least 0 and below 1.
  lemma RefusedAre(s: string, kind: MetricType, rate: Option<Float>)
    ensures HasInvalid(s) <==> '|' in s || '#' in s || ',' in s || '=' in s || ':' in s
    ensures BadRate(kind, rate) <==>
            kind == Counter && rate.Some? && !(rate.value.value.Some? && 0.0 <= rate.value.value.value && rate.value.value.value < 1.0)
  {
    forall c | c in s && (c == '|' || c == '#' || c == ',' || c == '=' || c == ':')
      ensures HasInvalid(s)
    {
      var i :| 0 <= i < |s| && s[i] == c;
      assert Invalid(s[i]);
    }
  }

  // A text that reads as what was reported, field by field; only a counter has a rate.
  ghost predicate ReadsAs(text: string, name: string, value: Float, kind: MetricType, rate: Option<Float>, tags: seq<TagPair>) {
    Plain(value.text) && (rate.Some? ==> Plain(rate.value.text)) ==>
      var read := ParseStatsd(text);
      && read.Some? && read.value.name == name && read.value.value == value.text && read.value.kind == kind
      && read.value.tags == tags
      && read.value.rate == if kind == Counter && rate.Some? then Some(rate.value.text) else None
  }

  lemma ReportedReadsBack(name: string, value: Float, kind: MetricType, rate: Option<Float>, tags: seq<TagPair>)
    requires !HasInvalid(name) && TagsOk(tags)
    ensures ReadsAs(StatsdText(Reported(name, value, kind, rate, tags)), name, value, kind, rate, tags)
  {
    var m := Reported(name, value, kind, rate, tags);
    if Printable(m) {
      StatsdReadsBack(m, StatsdText(m));
    }
  }

  lemma LineStarts(service: string, time: string, m: Message)
    ensures |Line(service, time, m)| > 11 && Line(service, time, m)[..11] == "MONITORING|"
  {
    var rest := service + ['|'] + (time + ['|'] + (StatsdText(m) + "\n"));
    assert Line(service, time, m) == "MONITORING|" + rest;
  }

  lemma TagsOkNext(tags: seq<TagPair>, i: nat)
    requires i < |tags|
    ensures TagsOk(tags[..i + 1]) <==> TagsOk(tags[..i]) && TagOk(tags[i])
    ensures TagsOk(tags) ==> TagOk(tags[i])
  {
  }

  lemma SectionText(before: string, tags: seq<TagPair>)
    requires tags != []
    ensures before + "|#" + Listed(tags) == before + TagSection(tags)
  {
    assert before + "|#" + Listed(tags) == before + ("|#" + Listed(tags));
  }

  lemma TextWithoutTags(m: Message)
    requires m.tags == []
    ensures StatsdText(m) == m.name + ":" + m.value + "|" + StatsdType(m.kind) + if m.rate.Some? then "|@" + m.rate.value else ""
  {
    var head := [m.name + ":" + m.value, StatsdType(m.kind)];
    assert head[..1] == [m.name + ":" + m.value];
    assert Delimited(head, '|') == m.name + ":" + m.value + "|" + StatsdType(m.kind);
    if m.rate.Some? {
      assert "|@" + m.rate.value == "|" + ("@" + m.rate.value);
      assert Fields(m) == head + ["@" + m.rate.value];
      assert Fields(m)[..2] == head;
    } else {
      assert Fields(m) == head;
    }
  }

  lemma JoinSnoc(parts: seq<string>, part: string, d: char)
    requires parts != []
    ensures Delimited(parts + [part], d) == Delimited(parts, d) + [d] + part
  {
    assert (parts + [part])[..|parts|] == parts;
  }

  lemma FieldsWithTags(m: Message, tags: seq<TagPair>)
    requires m.tags == [] && tags != []
    ensures Fields(m.(tags := tags)) == Fields(m) + ["#" + Listed(tags)]
  {
  }

  lemma TextWithTags(m: Message, tags: seq<TagPair>)
    requires m.tags == []
    ensures StatsdText(m.(tags := tags)) == StatsdText(m) + TagSection(tags)
  {
    if tags == [] {
      assert m.(tags := tags) == m;
      assert StatsdText(m) + "" == StatsdText(m);
    } else {
      FieldsWithTags(m, tags);
      JoinSnoc(Fields(m), "#" + Listed(tags), '|');
      RegroupTags(StatsdText(m), Listed(tags));
    }
  }

  lemma RegroupTags(a: string, b: string)
    ensures a + ['|'] + ("#" + b) == a + ("|#" + b)
  {
  }

  lemma TagTextsSnoc(tags: seq<TagPair>, tag: TagPair)
    ensures TagTexts(tags + [tag]) == TagTexts(tags) + [TagText(tag)]
  {
  }

  lemma TagsSnoc(base: string, tags: seq<TagPair>, tag: TagPair)
    ensures tags == [] ==> base + Listed(tags) + TagText(tag) == base + Listed(tags + [tag])
    ensures tags != [] ==> base + Listed(tags) + "," + TagText(tag) == base + Listed(tags + [tag])
  {
    TagTextsSnoc(tags, tag);
    if tags == [] {
      assert Listed(tags + [tag]) == TagText(tag);
      assert base + "" == base;
    } else {
      JoinSnoc(TagTexts(tags), TagText(tag), ',');
      RegroupComma(base, Listed(tags), TagText(tag));
    }
  }

  lemma RegroupComma(a: string, b: string, c: string)
    ensures a + b + "," + c == a + (b + [','] + c)
  {
  }

  // ---------------------------------------------------------------- reading

  datatype Stat = Stat(msg: Message, timestamp: string, service: string)

  datatype ParseError = PoorlyFormatted | NotStatsd

  predicate IsSpace(c: char) {
    c in "\t\n\r \U{0B}\U{0C}\U{85}\U{A0}\U{1680}\U{2028}\U{2029}\U{202F}\U{205F}\U{3000}" || '\U{2000}' <= c <= '\U{200A}'
  }

  predicate EndsInSpace(s: string) {
    s != "" && IsSpace(s[|s| - 1])
  }

  function TrimEnd(s: string): string {
    if EndsInSpace(s) then TrimEnd(s[..|s| - 1]) else s
  }

  function KindOf(s: string): Option<MetricType> {
    if s == "g" then Some(Gauge) else if s == "c" then Some(Counter) else if s == "h" then Some(Histogram) else None
  }

  function ParseTag(s: string): TagPair
    requires ':' in s
  {
    var i := IndexOf(s, ':');
    TagPair(s[..i], s[i + 1..])
  }

  function ParseTagTexts(texts: seq<string>): (tags: seq<TagPair>)
    requires forall i | 0 <= i < |texts| :: ':' in texts[i]
    ensures |tags| == |texts| && forall i | 0 <= i < |texts| :: tags[i] == ParseTag(texts[i])
  {
    seq(|texts|, i requires 0 <= i < |texts| => ParseTag(texts[i]))
  }

  function ParseTags(s: string): Option<seq<TagPair>> {
    var texts := Split(s, ',');
    if forall i | 0 <= i < |texts| :: ':' in texts[i] then Some(ParseTagTexts(texts)) else None
  }

  predicate Marked(s: string, mark: char) {
    s != "" && s[0] == mark
  }

  function ParseRate(rest: seq<string>): Option<string> {
    if rest != [] && Marked(rest[0], '@') then Some(rest[0][1..]) else None
  }

  function ParseTagField(rest: seq<string>): Option<seq<TagPair>> {
    if rest == [] then Some([])
    else if |rest| == 1 && Marked(rest[0], '#') then ParseTags(rest[0][1..])
    else None
  }

  function ParseFields(fields: seq<string>): Option<Message> {
    if |fields| < 2 || ':' !in fields[0] || KindOf(fields[1]).None? then None else
    var head, rest := ParseTag(fields[0]), fields[2..];
    var rate := ParseRate(rest);
    var tags := ParseTagField(rest[if rate.Some? then 1 else 0..]);
    if tags.None? then None else Some(Message(head.key, head.value, KindOf(fields[1]).value, rate, tags.value))
  }

  function ParseStatsd(s: string): Option<Message> {
    ParseFields(Split(s, '|'))
  }

  function ParseLog(log: string): Result<Stat, ParseError> {
    var parts := SplitN(TrimEnd(log), 4, '|');
    if |parts| != 4 then Err(PoorlyFormatted) else
    var msg := ParseStatsd(parts[3]);
    if msg.None? then Err(NotStatsd) else Ok(Stat(msg.value, parts[2], parts[1]))
  }

  // ---------------------------------------------------------------- reading what was printed

  // The texts of numbers have no separators and no spaces.
  predicate Plain(s: string) {
    '|' !in s && !EndsInSpace(s)
  }

  predicate Printable(m: Message) {
    !HasInvalid(m.name) && TagsOk(m.tags) && Plain(m.value) && (m.rate.Some? ==> Plain(m.rate.value))
  }

  lemma TagReadsBack(tag: TagPair)
    requires ':' !in tag.key
    ensures ':' in TagText(tag) && ParseTag(TagText(tag)) == tag
  {
    assert TagText(tag) == tag.key + [':'] + tag.value;
    FirstPart(tag.key, ':', tag.value);
  }

  lemma ParsedTag(s: string)
    requires ':' in s
    ensures TagText(ParseTag(s)) == s
  {
    var i := IndexOf(s, ':');
    assert s == s[..i] + ":" + s[i + 1..];
  }

  lemma ValidChar(s: string, c: char)
    requires !HasInvalid(s) && Invalid(c)
    ensures c !in s
  {
  }

  lemma TagTextPlain(tag: TagPair)
    requires TagOk(tag)
    ensures ',' !in TagText(tag) && '|' !in TagText(tag) && ':' !in tag.key
  {
    ValidChar(tag.key, ':');
    ValidChar(tag.key, ',');
    ValidChar(tag.value, ',');
    ValidChar(tag.key, '|');
    ValidChar(tag.value, '|');
  }

  lemma TagsReadBack(tags: seq<TagPair>)
    requires tags != [] && TagsOk(tags)
    ensures ParseTags(Listed(tags)) == Some(tags)
  {
    var texts := TagTexts(tags);
    forall i | 0 <= i < |tags|
      ensures ',' !in texts[i] && ':' in texts[i] && ParseTag(texts[i]) == tags[i]
    {
      TagTextPlain(tags[i]);
      TagReadsBack(tags[i]);
    }
    SplitJoin(texts, ',');
    assert ParseTagTexts(texts) == tags;
  }

  lemma ParsedTags(s: string)
    requires ParseTags(s).Some?
    ensures ParseTags(s).value != [] && Listed(ParseTags(s).value) == s
  {
    var texts := Split(s, ',');
    var tags := ParseTagTexts(texts);
    forall i | 0 <= i < |texts|
      ensures TagTexts(tags)[i] == texts[i]
    {
      ParsedTag(texts[i]);
    }
    assert TagTexts(tags) == texts;
    JoinSplit(s, ',');
  }

  lemma TailReadsBack(m: Message)
    requires TagsOk(m.tags)
    ensures ParseRate(TailFields(m)) == m.rate
    ensures ParseTagField(TailFields(m)[if m.rate.Some? then 1 else 0..]) == Some(m.tags)
  {
    if m.tags != [] {
      TagsReadBack(m.tags);
      assert ("#" + Listed(m.tags))[1..] == Listed(m.tags);
    }
    if m.rate.Some? {
      assert ("@" + m.rate.value)[1..] == m.rate.value;
    }
  }

  lemma HeadFields(m: Message)
    ensures |Fields(m)| >= 2 && Fields(m)[0] == TagText(TagPair(m.name, m.value)) && KindOf(Fields(m)[1]) == Some(m.kind)
    ensures Fields(m)[2..] == TailFields(m)
  {
  }

  lemma FieldsReadBack(m: Message)
    requires ':' !in m.name && TagsOk(m.tags)
    ensures ParseFields(Fields(m)) == Some(m)
  {
    HeadFields(m);
    TagReadsBack(TagPair(m.name, m.value));
    TailReadsBack(m);
  }

  lemma ParsedTail(m: Message, rest: seq<string>)
    requires m.rate == ParseRate(rest) && Some(m.tags) == ParseTagField(rest[if m.rate.Some? then 1 else 0..])
    ensures TailFields(m) == rest
  {
    var last := rest[if m.rate.Some? then 1 else 0..];
    if m.rate.Some? {
      assert rest[0] == "@" + rest[0][1..];
    }
    if last != [] {
      ParsedTags(last[0][1..]);
      assert last[0] == "#" + last[0][1..];
    }
  }

  // Nothing else reads as the same message.
  lemma ParsedFields(fields: seq<string>)
    requires ParseFields(fields).Some?
    ensures Fields(ParseFields(fields).value) == fields
  {
    var m := ParseFields(fields).value;
    ParsedTag(fields[0]);
    ParsedTail(m, fields[2..]);
  }

  lemma ListedPlain(tags: seq<TagPair>)
    requires tags != [] && TagsOk(tags)
    ensures '|' !in Listed(tags)
    ensures EndsInSpace(Listed(tags)) <==> EndsInSpace(tags[|tags| - 1].value)
  {
    var texts := TagTexts(tags);
    forall i | 0 <= i < |tags|
      ensures '|' !in texts[i]
    {
      TagTextPlain(tags[i]);
    }
    JoinLacks(texts, ',', '|');
    JoinEnd(texts, ',');
    var last := tags[|tags| - 1];
    if last.value == "" {
      assert TagText(last)[|TagText(last)| - 1] == ':';
    }
  }

  lemma {:induction false} JoinLacks(parts: seq<string>, d: char, c: char)
    requires parts != [] && c != d && forall i | 0 <= i < |parts| :: c !in parts[i]
    ensures c !in Delimited(parts, d)
    decreases |parts|
  {
    if |parts| > 1 {
      JoinLacks(parts[..|parts| - 1], d, c);
    }
  }

  lemma JoinEnd(parts: seq<string>, d: char)
    requires parts != [] && parts[|parts| - 1] != ""
    ensures EndsInSpace(Delimited(parts, d)) <==> EndsInSpace(parts[|parts| - 1])
  {
  }

  lemma FieldsPlain(m: Message)
    requires Printable(m)
    ensures forall i | 0 <= i < |Fields(m)| :: '|' !in Fields(m)[i] && Fields(m)[i] != ""
  {
    ValidChar(m.name, '|');
    if m.tags != [] {
      ListedPlain(m.tags);
    }
  }

  // The text reads back as the message, and no other text does.
  lemma StatsdReadsBack(m: Message, s: string)
    requires Printable(m)
    ensures ParseStatsd(s) == Some(m) <==> s == StatsdText(m)
  {
    FieldsPlain(m);
    SplitJoin(Fields(m), '|');
    ValidChar(m.name, ':');
    FieldsReadBack(m);
    if ParseStatsd(s) == Some(m) {
      ParsedFields(Split(s, '|'));
      JoinSplit(s, '|');
    }
  }

  lemma LastField(m: Message)
    requires Printable(m)
    ensures EndsInSpace(Fields(m)[|Fields(m)| - 1]) <==> m.tags != [] && EndsInSpace(m.tags[|m.tags| - 1].value)
  {
    if m.tags != [] {
      ListedPlain(m.tags);
      MarkEnd('#', Listed(m.tags));
    } else if m.rate.Some? {
      MarkEnd('@', m.rate.value);
    }
  }

  // Only the value of the last tag can put a space at the end.
  lemma TextEnd(m: Message)
    requires Printable(m)
    ensures EndsInSpace(StatsdText(m)) <==> m.tags != [] && EndsInSpace(m.tags[|m.tags| - 1].value)
  {
    FieldsPlain(m);
    JoinEnd(Fields(m), '|');
    LastField(m);
  }

  lemma MarkEnd(mark: char, s: string)
    requires !IsSpace(mark)
    ensures EndsInSpace([mark] + s) <==> EndsInSpace(s)
  {
  }

  // ---------------------------------------------------------------- whole lines

  lemma {:induction false} TrimKeeps(s: string, i: nat)
    requires i < |s| && !IsSpace(s[i])
    ensures i < |TrimEnd(s)|
    decreases |s|
  {
    if EndsInSpace(s) {
      TrimKeeps(s[..|s| - 1], i);
    }
  }

  lemma {:induction false} TrimAppend(a: string, b: string)
    requires TrimEnd(b) != ""
    ensures TrimEnd(a + b) == a + TrimEnd(b)
    decreases |b|
  {
    if EndsInSpace(b) {
      assert (a + b)[..|a + b| - 1] == a + b[..|b| - 1];
      TrimAppend(a, b[..|b| - 1]);
    } else {
      assert b != "";
      assert (a + b)[|a + b| - 1] == b[|b| - 1];
    }
  }

  lemma TrimRecord(first: string, service: string, time: string, rest: string)
    requires TrimEnd(rest) != ""
    ensures TrimEnd(Record(first, service, time, rest)) == Record(first, service, time, TrimEnd(rest))
  {
    TrimAppend(time + "|", rest);
    TrimAppend(service + "|", time + "|" + rest);
    TrimAppend(first + "|", service + "|" + (time + "|" + rest));
  }

  lemma TrimText(text: string, i: nat)
    requires i < |text| && !IsSpace(text[i])
    ensures TrimEnd(text + "\n") == TrimEnd(text) != ""
    ensures TrimEnd(text) == text <==> !EndsInSpace(text)
  {
    TrimKeeps(text, i);
    var line := text + "\n";
    assert line[..|line| - 1] == text;
    TrimShorter(text);
  }

  lemma {:induction false} TrimShorter(s: string)
    ensures |TrimEnd(s)| <= |s| && (EndsInSpace(s) ==> |TrimEnd(s)| < |s|)
    decreases |s|
  {
    if EndsInSpace(s) {
      TrimShorter(s[..|s| - 1]);
    }
  }

  lemma SplitNStep(a: string, b: string, count: nat, d: char)
    requires count > 1 && d !in a
    ensures SplitN(a + [d] + b, count, d) == [a] + SplitN(b, count - 1, d)
  {
    FirstPart(a, d, b);
  }

  lemma ThreeParts(service: string, time: string, rest: string)
    requires '|' !in service && '|' !in time
    ensures SplitN(service + ['|'] + (time + ['|'] + rest), 3, '|') == [service, time, rest]
  {
    SplitNStep(time, rest, 2, '|');
    SplitNStep(service, time + ['|'] + rest, 3, '|');
  }

  lemma FourParts(first: string, service: string, time: string, rest: string)
    requires '|' !in first && '|' !in service && '|' !in time
    ensures SplitN(Record(first, service, time, rest), 4, '|') == [first, service, time, rest]
  {
    var tail := service + ['|'] + (time + ['|'] + rest);
    ThreeParts(service, time, rest);
    SplitNStep(first, tail, 4, '|');
  }

  lemma ColonInText(m: Message)
    ensures exists i :: 0 <= i < |StatsdText(m)| && StatsdText(m)[i] == ':'
  {
    var s := m.name + ":" + m.value;
    assert s[|m.name|] == ':';
    assert Fields(m)[0] == s;
    JoinStart(Fields(m), '|');
    assert StatsdText(m)[|m.name|] == ':';
  }

  lemma {:induction false} JoinStart(parts: seq<string>, d: char)
    requires parts != []
    ensures |Delimited(parts, d)| >= |parts[0]| && Delimited(parts, d)[..|parts[0]|] == parts[0]
    decreases |parts|
  {
    if |parts| > 1 {
      JoinStart(parts[..|parts| - 1], d);
    }
  }

  // A printed line reads back as what was reported, by whom and when, exactly when the value
  // of its last tag does not end in a space.
  lemma LineReadsBack(service: string, time: string, m: Message)
    requires '|' !in service && '|' !in time && Printable(m)
    ensures ParseLog(Line(service, time, m)) == Ok(Stat(m, time, service)) <==>
            !(m.tags != [] && EndsInSpace(m.tags[|m.tags| - 1].value))
  {
    var text := StatsdText(m);
    LineParses(service, time, m);
    StatsdReadsBack(m, TrimEnd(text));
    TextEnd(m);
  }

  // What is parsed of a line is its text without the space at the end.
  lemma LineParses(service: string, time: string, m: Message)
    requires '|' !in service && '|' !in time
    ensures var text := StatsdText(m); var msg := ParseStatsd(TrimEnd(text));
            && (TrimEnd(text) == text <==> !EndsInSpace(text))
            && ParseLog(Line(service, time, m)) == if msg.None? then Err(NotStatsd) else Ok(Stat(msg.value, time, service))
  {
    var text := StatsdText(m);
    ColonInText(m);
    var i :| 0 <= i < |text| && text[i] == ':';
    TrimText(text, i);
    TrimRecord("MONITORING", service, time, text + "\n");
    RecordParses("MONITORING", service, time, TrimEnd(text), Line(service, time, m));
  }

  lemma RecordParses(first: string, service: string, time: string, rest: string, log: string)
    requires '|' !in first && '|' !in service && '|' !in time && TrimEnd(log) == Record(first, service, time, rest)
    ensures var msg := ParseStatsd(rest);
            ParseLog(log) == if msg.None? then Err(NotStatsd) else Ok(Stat(msg.value, time, service))
  {
    FourParts(first, service, time, rest);
  }
}
