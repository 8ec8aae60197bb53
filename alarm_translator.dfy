/**
 * The CloudWatch alarm translator: a decoded alarm notification becomes the
 * Slack message that describes it. `ExtractFields` derives the message's
 * texts from the notification (`prepare_slack_message`), `MessageBlocks`
 * lays them out in their fixed order, `ConstructSlackMessage` builds that
 * layout step by step as the source does, and `PrepareSlackMessage` runs the
 * two together.
 */
module AlarmTranslator {
  import opened Wrappers
  import opened Strings
  import opened SlackBlocks
  import PercentEncoding
  import DateTimes

  // ---------------------------------------------------------------------------
  // The notification

  /** A JSON value that is either `null` or a string. */
  datatype JsonText = Null | Text(s: string)

  /** Python truthiness of such a value: `None` and the empty string are false. */
  predicate Truthy(x: JsonText) {
    x.Text? && x.s != ""
  }

  /** A JSON number as Python reads it: an `int`, or a `float` together with its `repr`. */
  datatype Number = Int(i: int) | Float(repr: string)

  /** `str()` of a number. */
  function NumberText(n: Number): string {
    match n
    case Int(i) => IntToString(i)
    case Float(repr) => repr
  }

  /** One entry of `Trigger.Dimensions`; a key that is absent is `None`. */
  datatype Dimension = Dimension(name: Option<string>, value: Option<string>)

  /** The `Trigger` object of a notification; a key that is absent is `None`. */
  datatype Trigger = Trigger(
    metricName: Option<string>,
    statistic: Option<string>,
    comparisonOperator: Option<string>,
    threshold: Option<Number>,
    unit: Option<JsonText>,
    evaluationPeriods: Option<Number>,
    period: Option<Number>,
    dimensions: Option<seq<Dimension>>)

  /** A decoded alarm notification; a key that is absent is `None`. */
  datatype AlarmRecord = AlarmRecord(
    alarmName: Option<string>,
    alarmDescription: Option<JsonText>,
    oldStateValue: Option<string>,
    newStateValue: Option<string>,
    newStateReason: Option<string>,
    alarmArn: Option<string>,
    trigger: Option<Trigger>,
    stateChangeTime: Option<string>)

  /** The exceptions the translation raises. */
  datatype Error =
    | KeyError(key: string) // a required key is absent
    | IndexError            // the alarm ARN has fewer than four segments
    | ValueError            // the state-change time does not parse

  /** `obj[key]`: the value, or `KeyError` when the key is absent. */
  function Require<T>(field: Option<T>, key: string): (r: Result<T, Error>)
    ensures r.Success? <==> field.Some?
    ensures r.Success? ==> r.value == field.value
    ensures r.Failure? ==> r.error == KeyError(key)
  {
    match field
    case Some(v) => Success(v)
    case None => Failure(KeyError(key))
  }

  // ---------------------------------------------------------------------------
  // Lookup tables

  const LINK := "https://console.aws.amazon.com/cloudwatch/home?region={}#s=Alarms&alarm={}"

  const COLORS: map<string, string> := map[
    "ALARM" := "#A30200",
    "OK" := "#2EB886",
    "INSUFFICIENT_DATA" := "#DAA038"]

  const OPERATORS: map<string, string> := map[
    "GreaterThanThreshold" := ">",
    "GreaterThanOrEqualToThreshold" := ">=",
    "LessThanThreshold" := "<",
    "LessThanOrEqualToThreshold" := "<="]

  const UNKNOWN_COLOR := "#808080"
  const UNKNOWN_OPERATOR := "unknown"

  /** The value a lookup table holds for `key`, or `default` when it holds none. */
  function Lookup(table: map<string, string>, key: string, default: string): string {
    if key in table then table[key] else default
  }

  /** The attachment colour of an alarm's new state. */
  function Color(newState: string): string {
    Lookup(COLORS, newState, UNKNOWN_COLOR)
  }

  /** The symbol of a comparison operator. */
  function OperatorSymbol(operator: string): string {
    Lookup(OPERATORS, operator, UNKNOWN_OPERATOR)
  }

  /**
   * Every state has a colour: red, green and amber belong to exactly the three
   * states CloudWatch defines, and every other state is grey.
   */
  lemma ColorTable(state: string)
    ensures Color(state) in {"#A30200", "#2EB886", "#DAA038", "#808080"}
    ensures Color(state) == "#A30200" <==> state == "ALARM"
    ensures Color(state) == "#2EB886" <==> state == "OK"
    ensures Color(state) == "#DAA038" <==> state == "INSUFFICIENT_DATA"
    ensures Color(state) == UNKNOWN_COLOR <==> state !in COLORS
  {
  }

  /**
   * Every operator has a symbol: each of the four symbols belongs to exactly one
   * of the four operators CloudWatch defines, and every other operator is `unknown`.
   */
  lemma OperatorTable(operator: string)
    ensures OperatorSymbol(operator) in {">", ">=", "<", "<=", "unknown"}
    ensures OperatorSymbol(operator) == ">" <==> operator == "GreaterThanThreshold"
    ensures OperatorSymbol(operator) == ">=" <==> operator == "GreaterThanOrEqualToThreshold"
    ensures OperatorSymbol(operator) == "<" <==> operator == "LessThanThreshold"
    ensures OperatorSymbol(operator) == "<=" <==> operator == "LessThanOrEqualToThreshold"
    ensures OperatorSymbol(operator) == UNKNOWN_OPERATOR <==> operator !in OPERATORS
  {
  }

  // ---------------------------------------------------------------------------
  // Region

  /** The fourth colon-separated segment of the ARN, or `IndexError` when there are fewer than four. */
  function Region(arn: string): (r: Result<string, Error>)
    ensures r.Success? <==> Count(arn, ':') >= 3
    ensures r.Failure? ==> r.error == IndexError
    ensures r.Success? ==> ':' !in r.value
  {
    var parts := Split(arn, ':');
    if |parts| > 3 then Success(parts[3]) else Failure(IndexError)
  }

  lemma Reassociate(prefix: string, partition: string, service: string, region: string, rest: string)
    ensures prefix + ":" + partition + ":" + service + ":" + region + rest
      == prefix + (":" + (partition + (":" + (service + (":" + (region + rest))))))
  {
  }

  /**
   * The region of `prefix:partition:service:region...` is the segment after
   * the third colon, whatever follows it from the next colon on.
   */
  lemma RegionOf(prefix: string, partition: string, service: string, region: string, rest: string)
    requires ':' !in prefix && ':' !in partition && ':' !in service && ':' !in region
    requires rest == [] || rest[0] == ':'
    ensures Region(prefix + ":" + partition + ":" + service + ":" + region + rest) == Success(region)
  {
    var s3 := region + rest;
    var s2 := service + (":" + s3);
    var s1 := partition + (":" + s2);
    var s0 := prefix + (":" + s1);
    Reassociate(prefix, partition, service, region, rest);
    assert s2 == service + [':'] + s3;
    assert s1 == partition + [':'] + s2;
    assert s0 == prefix + [':'] + s1;
    SplitHead(region, ':', rest);
    SplitFirst(service, ':', s3);
    SplitFirst(partition, ':', s2);
    SplitFirst(prefix, ':', s1);
    assert Split(s0, ':')[3] == Split(s3, ':')[0];
  }

  /** The region of a CloudWatch alarm in US East (N. Virginia). */
  lemma RegionExample(arn: string)
    requires arn == "arn:aws:cloudwatch:us-east-1:123456789012:alarm:HighCPU"
    ensures Region(arn) == Success("us-east-1")
  {
    ArnPieces(arn);
    ArnHead();
    RegionOf("arn", "aws", "cloudwatch", "us-east-1", ":123456789012:alarm:HighCPU");
  }

  // ---------------------------------------------------------------------------
  // Link

  const LINK_HEAD := "https://console.aws.amazon.com/cloudwatch/home?region="
  const LINK_ALARM := "#s=Alarms&alarm="

  /** The template is its head, a field, the alarm part and a field. */
  lemma LinkTemplate(region: string, name: string)
    ensures FieldCount(LINK) == 2
    ensures Format(LINK, [region, name]) == LINK_HEAD + (region + (LINK_ALARM + name))
  {
    LinkHalves();
    LinkFields();
    LinkPlainParts();
    FormatTwo(LINK_HEAD, LINK_ALARM, "", region, name);
    assert name + "" == name;
  }

  /** The console link: the template filled with the region and the form-encoded name, spaces as `+`, `(` and `)` kept. */
  function Link(region: string, name: string): string {
    LinkTemplate(region, PercentEncoding.QuotePlus(name, "()"));
    Format(LINK, [region, PercentEncoding.QuotePlus(name, "()")])
  }

  /** The position of the last `c` in `s`. */
  function LastIndex(s: string, c: char): (r: Option<nat>)
    ensures r.Some? ==> r.value < |s| && s[r.value] == c
  {
    if s == [] then None
    else if s[|s| - 1] == c then Some(|s| - 1)
    else LastIndex(s[..|s| - 1], c)
  }

  lemma {:induction false} LastIndexOf(a: string, c: char, b: string)
    requires c !in b
    ensures LastIndex(a + [c] + b, c) == Some(|a|)
    decreases |b|
  {
    var s := a + [c] + b;
    if b != [] {
      assert s[|s| - 1] == b[|b| - 1];
      assert s[..|s| - 1] == a + [c] + b[..|b| - 1];
      LastIndexOf(a, c, b[..|b| - 1]);
    }
  }

  /**
   * Reads a console link back: the region between the head and the alarm
   * part, and the alarm name decoded from what follows the last `=`.
   */
  function ParseLink(link: string): Option<(string, string)> {
    if |link| >= |LINK_HEAD| && link[..|LINK_HEAD|] == LINK_HEAD then ParseLinkRest(link[|LINK_HEAD|..])
    else None
  }

  /** What follows the head: the region, the alarm part ending with the last `=`, and the encoded name. */
  function ParseLinkRest(rest: string): Option<(string, string)> {
    match LastIndex(rest, '=')
    case None => None
    case Some(i) =>
      if i + 1 >= |LINK_ALARM| && rest[i + 1 - |LINK_ALARM|..i + 1] == LINK_ALARM then
        var name :- PercentEncoding.FormDecode(rest[i + 1..], "()");
        Some((rest[..i + 1 - |LINK_ALARM|], name))
      else None
  }

  /**
   * The alarm name's encoding holds only ASCII letters and digits, `_ . - ~ ( )`,
   * `+` and `%` (so no `=`), and it decodes back to the name.
   */
  lemma LinkEncoding(name: string)
    ensures forall c :: c in PercentEncoding.QuotePlus(name, "()") ==>
      || ('A' <= c <= 'Z') || ('a' <= c <= 'z') || ('0' <= c <= '9')
      || c in "_.-~()+%"
    ensures PercentEncoding.FormDecode(PercentEncoding.QuotePlus(name, "()"), "()") == Some(name)
  {
    PercentEncoding.QuotePlusAlphabet(name, "()");
    PercentEncoding.DecodeQuotePlus(name, "()");
  }

  /** A space is written `+`, and `+` and `/` are escaped; parentheses are kept. */
  lemma LinkEncodingExamples()
    ensures PercentEncoding.QuotePlus(" ", "()") == "+"
    ensures PercentEncoding.QuotePlus("+", "()") == "%2B"
    ensures PercentEncoding.QuotePlus("/", "()") == "%2F"
    ensures PercentEncoding.QuotePlus("(", "()") == "("
  {
    PercentEncoding.QuotePlusAscii(' ', "()");
    PercentEncoding.QuotePlusAscii('+', "()");
    PercentEncoding.QuotePlusAscii('/', "()");
    PercentEncoding.QuotePlusAscii('(', "()");
  }

  /** The console link gives back the region and the alarm name it was made from. */
  lemma ParseLinkOf(region: string, name: string)
    ensures ParseLink(Link(region, name)) == Some((region, name))
  {
    var encoded := PercentEncoding.QuotePlus(name, "()");
    LinkEncoding(name);
    assert '=' !in encoded;
    var link := Link(region, name);
    LinkTemplate(region, encoded);
    var rest := region + (LINK_ALARM + encoded);
    assert link == LINK_HEAD + rest;
    PrefixAndRest(LINK_HEAD, rest);
    assert ParseLink(link) == ParseLinkRest(rest);
    ParseLinkRestOf(region, name);
  }

  lemma ParseLinkRestOf(region: string, name: string)
    ensures ParseLinkRest(region + (LINK_ALARM + PercentEncoding.QuotePlus(name, "()"))) == Some((region, name))
  {
    var encoded := PercentEncoding.QuotePlus(name, "()");
    LinkEncoding(name);
    assert '=' !in encoded;
    var rest := region + (LINK_ALARM + encoded);
    KeyBeforeValue(region, LINK_ALARM, encoded);
    var i := |region| + |LINK_ALARM| - 1;
    assert LastIndex(rest, '=') == Some(i);
    assert rest[i + 1 - |LINK_ALARM|..i + 1] == LINK_ALARM;
    assert rest[i + 1..] == encoded && rest[..i + 1 - |LINK_ALARM|] == region;
  }

  // ---------------------------------------------------------------------------
  // Dimensions

  /** A dimension shown as its name, a colon and a space, then its value. */
  function DimensionText(dim: Dimension): (r: Result<string, Error>)
    ensures r.Success? <==> dim.name.Some? && dim.value.Some?
    ensures r.Failure? ==> r.error == (if dim.name.None? then KeyError("name") else KeyError("value"))
  {
    var name :- Require(dim.name, "name");
    var value :- Require(dim.value, "value");
    Success(name + ": " + value)
  }

  /** Each dimension's text, in order; the first dimension lacking a key fails. */
  function DimensionTexts(dims: seq<Dimension>): Result<seq<string>, Error> {
    if dims == [] then Success([])
    else
      var head :- DimensionText(dims[0]);
      var tail :- DimensionTexts(dims[1..]);
      Success([head] + tail)
  }

  /** The texts of all dimensions, separated by a comma and a space. */
  function DimensionsText(dims: seq<Dimension>): Result<string, Error> {
    var texts :- DimensionTexts(dims);
    Success(Join(texts, ", "))
  }

  predicate WellFormedDimension(dim: Dimension) {
    dim.name.Some? && dim.value.Some?
  }

  /**
   * The texts of well-formed dimensions are `name: value`, one per dimension
   * and in input order; any dimension lacking `name` or `value` fails.
   */
  lemma {:induction false} DimensionTextsOf(dims: seq<Dimension>)
    ensures DimensionTexts(dims).Success? <==> forall i :: 0 <= i < |dims| ==> WellFormedDimension(dims[i])
    ensures DimensionTexts(dims).Success? ==>
      && |DimensionTexts(dims).value| == |dims|
      && forall i :: 0 <= i < |dims| ==>
           DimensionTexts(dims).value[i] == dims[i].name.value + ": " + dims[i].value.value
  {
    if dims != [] {
      DimensionTextsOf(dims[1..]);
      assert forall i :: 1 <= i < |dims| ==> dims[i] == dims[1..][i - 1];
    }
  }

  /** Every dimension's text is at least two characters long, so a text is empty only without dimensions. */
  lemma {:induction false} JoinNonEmpty(parts: seq<string>, sep: string)
    requires forall i :: 0 <= i < |parts| ==> |parts[i]| >= 2
    ensures Join(parts, sep) == "" <==> parts == []
  {
  }

  /** The dimensions text is empty exactly when there are no dimensions. */
  lemma DimensionsTextEmpty(dims: seq<Dimension>)
    requires DimensionsText(dims).Success?
    ensures DimensionsText(dims).value == "" <==> dims == []
  {
    DimensionTextsOf(dims);
    var texts := DimensionTexts(dims).value;
    JoinNonEmpty(texts, ", ");
  }

  // ---------------------------------------------------------------------------
  // Trigger sentence

  const TRIGGER_TEMPLATE := "{} {} {} {}{} for {} period(s) of {} seconds."

  /**
   * The unit as the sentence writes it: nothing when the unit is `null` or
   * empty, otherwise a space and the unit in lower case.
   */
  function UnitSuffix(unit: JsonText): (r: string)
    ensures r == "" <==> !Truthy(unit)
    ensures Truthy(unit) ==> r[0] == ' ' && |r| == |unit.s| + 1
    ensures Truthy(unit) ==> forall i :: 1 <= i < |r| ==> !IsAsciiUpper(r[i]) && UpperChar(r[i]) == UpperChar(unit.s[i - 1])
  {
    if Truthy(unit) then " " + Lower(unit.s) else ""
  }

  const TRIGGER_TAIL := " for {} period(s) of {} seconds."

  lemma TriggerTail(periods: string, period: string)
    ensures FieldCount(TRIGGER_TAIL) == 2
    ensures Format(TRIGGER_TAIL, [periods, period]) == " for " + (periods + (" period(s) of " + (period + " seconds.")))
  {
    TriggerTailPieces();
    FormatTwo(" for ", " period(s) of ", " seconds.", periods, period);
  }

  /** The trigger template with its seven fields filled in order. */
  lemma TriggerTemplate(statistic: string, metric: string, operator: string, threshold: string,
                        unit: string, periods: string, period: string)
    ensures FieldCount(TRIGGER_TEMPLATE) == 7
    ensures Format(TRIGGER_TEMPLATE, [statistic, metric, operator, threshold, unit, periods, period])
      == statistic + (" " + (metric + (" " + (operator + (" " + (threshold + (unit
         + (" for " + (periods + (" period(s) of " + (period + " seconds.")))))))))))
  {
    TriggerHalves();
    TriggerHead(TRIGGER_TAIL);
    TriggerTail(periods, period);
    var a5 := [periods, period];
    var a4 := [unit] + a5;
    var a3 := [threshold] + a4;
    var a2 := [operator] + a3;
    var a1 := [metric] + a2;
    var r4 := "{}" + TRIGGER_TAIL;
    var r3 := " " + ("{}" + r4);
    var r2 := " " + ("{}" + r3);
    var r1 := " " + ("{}" + r2);
    FormatField(TRIGGER_TAIL, unit, a5);
    FormatStep(" ", r4, threshold, a4);
    FormatStep(" ", r3, operator, a3);
    FormatStep(" ", r2, metric, a2);
    FormatField(r1, statistic, a1);
    SevenArguments(statistic, metric, operator, threshold, unit, periods, period);
  }

  /** The sentence that describes an alarm's trigger. */
  function TriggerSentence(statistic: string, metricName: string, operator: string, threshold: string,
                           unitSuffix: string, periods: string, period: string): string
  {
    TriggerTemplate(Capitalize(statistic), metricName, operator, threshold, unitSuffix, periods, period);
    Format(TRIGGER_TEMPLATE, [Capitalize(statistic), metricName, operator, threshold, unitSuffix, periods, period])
  }

  /**
   * The sentence is the statistic capitalised, the metric, the operator and
   * the threshold separated by spaces, the unit suffix, and the evaluation
   * periods and period in the fixed wording.
   */
  lemma TriggerSentenceOf(statistic: string, metricName: string, operator: string, threshold: string,
                          unitSuffix: string, periods: string, period: string)
    ensures TriggerSentence(statistic, metricName, operator, threshold, unitSuffix, periods, period)
      == Capitalize(statistic) + (" " + (metricName + (" " + (operator + (" " + (threshold + (unitSuffix
         + (" for " + (periods + (" period(s) of " + (period + " seconds.")))))))))))
  {
    TriggerTemplate(Capitalize(statistic), metricName, operator, threshold, unitSuffix, periods, period);
  }

  lemma CapitalizeExample()
    ensures Capitalize("average") == "Average"
  {
    assert "average"[1..] == "verage";
    LowerOfLower("verage");
  }

  lemma UnitExample()
    ensures UnitSuffix(Text("Percent")) == " percent"
  {
    assert Lower("Percent") == "percent";
  }

  lemma NumberExamples()
    ensures NumberText(Int(80)) == "80" && NumberText(Int(3)) == "3" && NumberText(Int(300)) == "300"
  {
  }

  /** An average CPU alarm above 80 percent for three five-minute periods. */
  lemma TriggerSentenceExample(sentence: string)
    requires sentence == "Average CPUUtilization > 80 percent for 3 period(s) of 300 seconds."
    ensures TriggerSentence("average", "CPUUtilization", OperatorSymbol("GreaterThanThreshold"), NumberText(Int(80)),
                            UnitSuffix(Text("Percent")), NumberText(Int(3)), NumberText(Int(300))) == sentence
  {
    CapitalizeExample();
    UnitExample();
    NumberExamples();
    OperatorTable("GreaterThanThreshold");
    ExampleSentenceText(sentence);
    TriggerSentenceOf("average", "CPUUtilization", ">", "80", " percent", "3", "300");
  }

  // ---------------------------------------------------------------------------
  // prepare_slack_message: the message's texts

  /** The values `prepare_slack_message` passes to `construct_slack_message`. */
  datatype MessageFields = MessageFields(
    name: string,
    description: JsonText,
    trigger: string,
    dimensions: Option<string>,
    reason: string,
    oldState: string,
    newState: string,
    link: string,
    timestamp: int)

  /** The dimensions text, when the trigger has a `Dimensions` key. */
  function OptionalDimensionsText(dims: Option<seq<Dimension>>): Result<Option<string>, Error> {
    match dims
    case None => Success(None)
    case Some(ds) =>
      var text :- DimensionsText(ds);
      Success(Some(text))
  }

  /** The trigger sentence, reading the trigger's keys in the order the source reads them. */
  function TriggerText(trigger: Trigger): Result<string, Error> {
    var operator :- Require(trigger.comparisonOperator, "ComparisonOperator");
    var unit :- Require(trigger.unit, "Unit");
    var statistic :- Require(trigger.statistic, "Statistic");
    var metricName :- Require(trigger.metricName, "MetricName");
    var threshold :- Require(trigger.threshold, "Threshold");
    var periods :- Require(trigger.evaluationPeriods, "EvaluationPeriods");
    var period :- Require(trigger.period, "Period");
    Success(TriggerSentence(statistic, metricName, OperatorSymbol(operator), NumberText(threshold),
                            UnitSuffix(unit), NumberText(periods), NumberText(period)))
  }

  /**
   * The Unix time of the state change, rounded to the nearest second, or a
   * `ValueError` when the time is not in the notification's fixed format
   * (ASCII digits only; see `DateTimes.ParseStateChangeTime`).
   */
  function StateChangeTimestamp(time: string): (r: Result<int, Error>)
    ensures r.Failure? <==> DateTimes.ParseStateChangeTime(time).None?
    ensures r.Failure? ==> r.error == ValueError
  {
    match DateTimes.ParseStateChangeTime(time)
    case None => Failure(ValueError)
    case Some(dt) => Success(DateTimes.Timestamp(dt))
  }

  /**
   * Lines 58-83 of `prepare_slack_message`: every key is read in the source's
   * order, so the first one that is absent, or the first step that fails,
   * decides the error.
   */
  function ExtractFields(record: AlarmRecord): Result<MessageFields, Error> {
    var name :- Require(record.alarmName, "AlarmName");
    var description :- Require(record.alarmDescription, "AlarmDescription");
    var oldState :- Require(record.oldStateValue, "OldStateValue");
    var newState :- Require(record.newStateValue, "NewStateValue");
    var reason :- Require(record.newStateReason, "NewStateReason");
    var arn :- Require(record.alarmArn, "AlarmArn");
    var region :- Region(arn);
    var link := Link(region, name);
    var trigger :- Require(record.trigger, "Trigger");
    var dimensions :- OptionalDimensionsText(trigger.dimensions);
    var sentence :- TriggerText(trigger);
    var time :- Require(record.stateChangeTime, "StateChangeTime");
    var timestamp :- StateChangeTimestamp(time);
    Success(MessageFields(name, description, sentence, dimensions, reason, oldState, newState, link, timestamp))
  }

  predicate WellFormedTrigger(trigger: Trigger) {
    && trigger.metricName.Some?
    && trigger.statistic.Some?
    && trigger.comparisonOperator.Some?
    && trigger.threshold.Some?
    && trigger.unit.Some?
    && trigger.evaluationPeriods.Some?
    && trigger.period.Some?
    && (trigger.dimensions.Some? ==>
          forall i :: 0 <= i < |trigger.dimensions.value| ==> WellFormedDimension(trigger.dimensions.value[i]))
  }

  /** A notification the translator accepts: every key present, an ARN with a region, a time that parses. */
  predicate WellFormedRecord(record: AlarmRecord) {
    && record.alarmName.Some?
    && record.alarmDescription.Some?
    && record.oldStateValue.Some?
    && record.newStateValue.Some?
    && record.newStateReason.Some?
    && record.alarmArn.Some?
    && Count(record.alarmArn.value, ':') >= 3
    && record.trigger.Some?
    && WellFormedTrigger(record.trigger.value)
    && record.stateChangeTime.Some?
    && DateTimes.ParseStateChangeTime(record.stateChangeTime.value).Some?
  }

  lemma OptionalDimensionsTextOf(dims: Option<seq<Dimension>>)
    ensures OptionalDimensionsText(dims).Success? <==>
      (dims.Some? ==> forall i :: 0 <= i < |dims.value| ==> WellFormedDimension(dims.value[i]))
    ensures OptionalDimensionsText(dims).Success? ==>
      (OptionalDimensionsText(dims).value.None? <==> dims.None?)
    ensures OptionalDimensionsText(dims).Success? && dims.Some? ==>
      (OptionalDimensionsText(dims).value == Some("") <==> dims.value == [])
  {
    if dims.Some? {
      DimensionTextsOf(dims.value);
      if DimensionsText(dims.value).Success? {
        DimensionsTextEmpty(dims.value);
      }
    }
  }

  lemma TriggerTextOf(trigger: Trigger)
    ensures TriggerText(trigger).Success? <==>
      && trigger.metricName.Some? && trigger.statistic.Some? && trigger.comparisonOperator.Some?
      && trigger.threshold.Some? && trigger.unit.Some? && trigger.evaluationPeriods.Some? && trigger.period.Some?
  {
  }

  lemma ExtractFieldsSucceeds(record: AlarmRecord)
    requires WellFormedRecord(record)
    ensures ExtractFields(record).Success?
  {
    OptionalDimensionsTextOf(record.trigger.value.dimensions);
    TriggerTextOf(record.trigger.value);
  }

  lemma ExtractFieldsFails(record: AlarmRecord)
    requires !WellFormedRecord(record)
    ensures ExtractFields(record).Failure?
  {
    if record.trigger.Some? {
      OptionalDimensionsTextOf(record.trigger.value.dimensions);
      TriggerTextOf(record.trigger.value);
    }
  }

  lemma ExtractFieldsSuccess(record: AlarmRecord)
    requires ExtractFields(record).Success?
    ensures WellFormedRecord(record)
    ensures var trigger := record.trigger.value;
      ExtractFields(record).value == MessageFields(
        record.alarmName.value, record.alarmDescription.value, TriggerText(trigger).value,
        OptionalDimensionsText(trigger.dimensions).value, record.newStateReason.value,
        record.oldStateValue.value, record.newStateValue.value,
        Link(Region(record.alarmArn.value).value, record.alarmName.value),
        StateChangeTimestamp(record.stateChangeTime.value).value)
  {
    OptionalDimensionsTextOf(record.trigger.value.dimensions);
    TriggerTextOf(record.trigger.value);
  }

  lemma ExtractFieldsValues(record: AlarmRecord)
    requires ExtractFields(record).Success?
    ensures
      var f := ExtractFields(record).value;
      && f.name == record.alarmName.value
      && f.description == record.alarmDescription.value
      && f.oldState == record.oldStateValue.value
      && f.newState == record.newStateValue.value
      && f.reason == record.newStateReason.value
      && ParseLink(f.link) == Some((Region(record.alarmArn.value).value, f.name))
      && (f.dimensions.None? <==> record.trigger.value.dimensions.None?)
      && (f.dimensions == Some("") <==> record.trigger.value.dimensions == Some([]))
      && f.timestamp == DateTimes.Timestamp(DateTimes.ParseStateChangeTime(record.stateChangeTime.value).value)
  {
    ExtractFieldsSuccess(record);
    OptionalDimensionsTextOf(record.trigger.value.dimensions);
    ParseLinkOf(Region(record.alarmArn.value).value, record.alarmName.value);
  }

  /**
   * The texts are taken exactly when the notification is well formed, and then
   * they keep the notification's name, states, reason and description; the link
   * reads back to the ARN's region and the alarm name; the dimensions text is
   * absent exactly without a `Dimensions` key and empty exactly for an empty
   * list; the timestamp is that of the parsed state-change time.
   */
  lemma ExtractFieldsOf(record: AlarmRecord)
    ensures ExtractFields(record).Success? <==> WellFormedRecord(record)
    ensures ExtractFields(record).Success? ==>
      var f := ExtractFields(record).value;
      && f.name == record.alarmName.value
      && f.description == record.alarmDescription.value
      && f.oldState == record.oldStateValue.value
      && f.newState == record.newStateValue.value
      && f.reason == record.newStateReason.value
      && ParseLink(f.link) == Some((Region(record.alarmArn.value).value, f.name))
      && (f.dimensions.None? <==> record.trigger.value.dimensions.None?)
      && (f.dimensions == Some("") <==> record.trigger.value.dimensions == Some([]))
      && f.timestamp == DateTimes.Timestamp(DateTimes.ParseStateChangeTime(record.stateChangeTime.value).value)
  {
    if WellFormedRecord(record) {
      ExtractFieldsSucceeds(record);
      ExtractFieldsValues(record);
    } else {
      ExtractFieldsFails(record);
    }
  }

  /** Whether a trigger lacks the key, itself or in one of its dimensions. */
  predicate TriggerLacksKey(trigger: Trigger, key: string) {
    || (key == "MetricName" && trigger.metricName.None?)
    || (key == "Statistic" && trigger.statistic.None?)
    || (key == "ComparisonOperator" && trigger.comparisonOperator.None?)
    || (key == "Threshold" && trigger.threshold.None?)
    || (key == "Unit" && trigger.unit.None?)
    || (key == "EvaluationPeriods" && trigger.evaluationPeriods.None?)
    || (key == "Period" && trigger.period.None?)
    || (trigger.dimensions.Some? &&
          exists i :: 0 <= i < |trigger.dimensions.value| && DimensionLacksKey(trigger.dimensions.value[i], key))
  }

  predicate DimensionLacksKey(dim: Dimension, key: string) {
    (key == "name" && dim.name.None?) || (key == "value" && dim.value.None?)
  }

  /** Whether a notification lacks the key, itself or in its trigger. */
  predicate LacksKey(record: AlarmRecord, key: string) {
    || (key == "AlarmName" && record.alarmName.None?)
    || (key == "AlarmDescription" && record.alarmDescription.None?)
    || (key == "OldStateValue" && record.oldStateValue.None?)
    || (key == "NewStateValue" && record.newStateValue.None?)
    || (key == "NewStateReason" && record.newStateReason.None?)
    || (key == "AlarmArn" && record.alarmArn.None?)
    || (key == "Trigger" && record.trigger.None?)
    || (key == "StateChangeTime" && record.stateChangeTime.None?)
    || (record.trigger.Some? && TriggerLacksKey(record.trigger.value, key))
  }

  /** The first dimension lacking a key decides the error, which names a key it lacks. */
  lemma {:induction false} DimensionTextsFailure(dims: seq<Dimension>)
    requires DimensionTexts(dims).Failure?
    ensures exists i ::
      && 0 <= i < |dims| && !WellFormedDimension(dims[i])
      && (forall j :: 0 <= j < i ==> WellFormedDimension(dims[j]))
      && DimensionTexts(dims).error == DimensionText(dims[i]).error
  {
    if DimensionText(dims[0]).Success? {
      DimensionTextsFailure(dims[1..]);
      var i :| 0 <= i < |dims[1..]| && !WellFormedDimension(dims[1..][i])
        && (forall j :: 0 <= j < i ==> WellFormedDimension(dims[1..][j]))
        && DimensionTexts(dims[1..]).error == DimensionText(dims[1..][i]).error;
      assert forall j :: 0 <= j < i + 1 ==> WellFormedDimension(dims[j]) by {
        forall j | 0 <= j < i + 1 ensures WellFormedDimension(dims[j]) {
          if j > 0 {
            assert dims[j] == dims[1..][j - 1];
          }
        }
      }
      assert dims[i + 1] == dims[1..][i];
    } else {
      assert !WellFormedDimension(dims[0]);
    }
  }

  /** A failing dimension list fails with a `KeyError` naming a key some dimension lacks. */
  lemma DimensionTextsKeyError(dims: seq<Dimension>)
    requires DimensionTexts(dims).Failure?
    ensures DimensionTexts(dims).error.KeyError?
    ensures exists i :: 0 <= i < |dims| && DimensionLacksKey(dims[i], DimensionTexts(dims).error.key)
  {
    DimensionTextsFailure(dims);
    var i :| 0 <= i < |dims| && !WellFormedDimension(dims[i])
      && DimensionTexts(dims).error == DimensionText(dims[i]).error;
    var e := DimensionText(dims[i]);
    if dims[i].name.None? {
      assert e.error == KeyError("name");
      assert DimensionLacksKey(dims[i], "name");
    } else {
      assert e.error == KeyError("value");
      assert DimensionLacksKey(dims[i], "value");
    }
  }

  lemma TriggerTextFailure(trigger: Trigger)
    requires TriggerText(trigger).Failure?
    ensures TriggerText(trigger).error.KeyError?
    ensures TriggerLacksKey(trigger, TriggerText(trigger).error.key)
  {
  }

  /**
   * A failure is a `KeyError` naming a key the notification lacks, an
   * `IndexError` for an ARN with fewer than four segments, or a `ValueError`
   * for a state-change time that does not parse. The keys of the notification
   * are looked up in a fixed order, and the error names the first one missing.
   */
  lemma ExtractFieldsFailure(record: AlarmRecord)
    requires ExtractFields(record).Failure?
    ensures var e := ExtractFields(record).error;
      || (e.KeyError? && LacksKey(record, e.key))
      || (e == IndexError && record.alarmArn.Some? && Count(record.alarmArn.value, ':') < 3)
      || (e == ValueError && record.stateChangeTime.Some?
            && DateTimes.ParseStateChangeTime(record.stateChangeTime.value).None?)
    ensures record.alarmName.None? ==> ExtractFields(record).error == KeyError("AlarmName")
    ensures (record.alarmName.Some? && record.alarmDescription.None?) ==>
      ExtractFields(record).error == KeyError("AlarmDescription")
    ensures (record.alarmName.Some? && record.alarmDescription.Some? && record.oldStateValue.None?) ==>
      ExtractFields(record).error == KeyError("OldStateValue")
    ensures (record.alarmName.Some? && record.alarmDescription.Some? && record.oldStateValue.Some?
             && record.newStateValue.None?) ==>
      ExtractFields(record).error == KeyError("NewStateValue")
    ensures (record.alarmName.Some? && record.alarmDescription.Some? && record.oldStateValue.Some?
             && record.newStateValue.Some? && record.newStateReason.None?) ==>
      ExtractFields(record).error == KeyError("NewStateReason")
    ensures (record.alarmName.Some? && record.alarmDescription.Some? && record.oldStateValue.Some?
             && record.newStateValue.Some? && record.newStateReason.Some? && record.alarmArn.None?) ==>
      ExtractFields(record).error == KeyError("AlarmArn")
  {
    var e := ExtractFields(record).error;
    if record.alarmName.None? {
      assert e == KeyError("AlarmName");
    } else if record.alarmDescription.None? {
      assert e == KeyError("AlarmDescription");
    } else if record.oldStateValue.None? {
      assert e == KeyError("OldStateValue");
    } else if record.newStateValue.None? {
      assert e == KeyError("NewStateValue");
    } else if record.newStateReason.None? {
      assert e == KeyError("NewStateReason");
    } else if record.alarmArn.None? {
      assert e == KeyError("AlarmArn");
    } else if Region(record.alarmArn.value).Failure? {
      assert e == IndexError;
    } else if record.trigger.None? {
      assert e == KeyError("Trigger");
    } else if OptionalDimensionsText(record.trigger.value.dimensions).Failure? {
      var dims := record.trigger.value.dimensions.value;
      DimensionTextsKeyError(dims);
      assert e == DimensionTexts(dims).error;
    } else if TriggerText(record.trigger.value).Failure? {
      TriggerTextFailure(record.trigger.value);
      assert e == TriggerText(record.trigger.value).error;
    } else if record.stateChangeTime.None? {
      assert e == KeyError("StateChangeTime");
    } else {
      assert e == ValueError;
    }
  }

  // ---------------------------------------------------------------------------
  // construct_slack_message: the message's layout

  const DATE_OPEN := "<!date^"
  const DATE_CLOSE := "^ {date} at {time}| >"

  /** Slack's date directive for a Unix time, which Slack shows as a local date and time. */
  function DateDirective(timestamp: int): string {
    DATE_OPEN + IntToString(timestamp) + DATE_CLOSE
  }

  /** Reads the Unix time back out of a date directive. */
  function ReadDateDirective(text: string): Option<int> {
    if |text| >= |DATE_OPEN| + |DATE_CLOSE| && text[..|DATE_OPEN|] == DATE_OPEN
       && text[|text| - |DATE_CLOSE|..] == DATE_CLOSE
    then DecimalValue(text[|DATE_OPEN|..|text| - |DATE_CLOSE|])
    else None
  }

  /** The directive starts with `<`, so it is never read as a titled text, and it gives back its time. */
  lemma DateDirectiveRoundTrip(timestamp: int)
    ensures DateDirective(timestamp)[0] == '<'
    ensures ReadDateDirective(DateDirective(timestamp)) == Some(timestamp)
  {
    var digits := IntToString(timestamp);
    var text := DateDirective(timestamp);
    assert text[..|DATE_OPEN|] == DATE_OPEN;
    assert text[|text| - |DATE_CLOSE|..] == DATE_CLOSE;
    assert text[|DATE_OPEN|..|text| - |DATE_CLOSE|] == digits;
    IntToStringRoundTrip(timestamp);
  }

  /** Python truthiness of the dimensions text: present and not empty. */
  predicate DimensionsShown(dimensions: Option<string>) {
    dimensions.Some? && dimensions.value != ""
  }

  /** The markdown text of the context block. */
  function DateContext(timestamp: int): Block {
    Context([MarkdownOf(None, DateDirective(timestamp))])
  }

  /** The blocks `construct_slack_message` lays out, in their order. */
  function MessageBlocks(f: MessageFields): seq<Block> {
    [TextSectionOf("Name", f.name)]
    + (if Truthy(f.description) then [TextSectionOf("Description", f.description.s)] else [])
    + [TextSectionOf("Trigger", f.trigger), TextSectionOf("State change reason", f.reason)]
    + (if DimensionsShown(f.dimensions) then [TextSectionOf("Dimension(s)", f.dimensions.value)] else [])
    + [FieldsSectionOf([MarkdownOf(Some("Previous state"), f.oldState), MarkdownOf(Some("New state"), f.newState)]),
       TextSectionOf("Link to alarm", f.link),
       DateContext(f.timestamp)]
  }

  /** The message: one attachment, coloured by the new state, holding the blocks. */
  function SlackMessage(f: MessageFields): Message {
    Message([Attachment(Color(f.newState), MessageBlocks(f))])
  }

  /**
   * `construct_slack_message`: starts the block list with the name, appends
   * the description when it is truthy, extends it with the trigger and the
   * reason, appends the dimensions when they are truthy, and extends it with
   * the states, the link and the date.
   */
  method ConstructSlackMessage(name: string, description: JsonText, trigger: string, dimensions: Option<string>,
                               reason: string, oldState: string, newState: string, link: string, timestamp: int)
    returns (message: Message)
    ensures message == SlackMessage(MessageFields(name, description, trigger, dimensions, reason,
                                                  oldState, newState, link, timestamp))
  {
    var blocks := [TextSectionOf("Name", name)];
    if Truthy(description) {
      blocks := blocks + [TextSectionOf("Description", description.s)];
    }
    ghost var withDescription := blocks;
    assert blocks == [TextSectionOf("Name", name)]
      + (if Truthy(description) then [TextSectionOf("Description", description.s)] else []);
    blocks := blocks + [TextSectionOf("Trigger", trigger), TextSectionOf("State change reason", reason)];
    if DimensionsShown(dimensions) {
      blocks := blocks + [TextSectionOf("Dimension(s)", dimensions.value)];
    }
    assert blocks == withDescription + [TextSectionOf("Trigger", trigger), TextSectionOf("State change reason", reason)]
      + (if DimensionsShown(dimensions) then [TextSectionOf("Dimension(s)", dimensions.value)] else []);
    blocks := blocks + [
      FieldsSectionOf([MarkdownOf(Some("Previous state"), oldState), MarkdownOf(Some("New state"), newState)]),
      TextSectionOf("Link to alarm", link),
      DateContext(timestamp)];
    message := Message([Attachment(Color(newState), blocks)]);
  }

  /**
   * Six blocks, one more for a truthy description and one more for a truthy
   * dimensions text; every block but the last two-field section and the
   * closing context block is a text section, and the context block, which
   * holds the date, is last.
   */
  lemma MessageLayout(f: MessageFields)
    ensures var blocks := MessageBlocks(f);
      && |blocks| == 6 + (if Truthy(f.description) then 1 else 0) + (if DimensionsShown(f.dimensions) then 1 else 0)
      && 6 <= |blocks| <= 8
      && (forall i :: 0 <= i < |blocks| - 3 ==> blocks[i].TextSection?)
      && blocks[|blocks| - 3].FieldsSection? && |blocks[|blocks| - 3].fields| == 2
      && blocks[|blocks| - 2].TextSection?
      && blocks[|blocks| - 1] == DateContext(f.timestamp)
  {
    var b1 := if Truthy(f.description) then [TextSectionOf("Description", f.description.s)] else [];
    var b3 := if DimensionsShown(f.dimensions) then [TextSectionOf("Dimension(s)", f.dimensions.value)] else [];
    var head := [TextSectionOf("Name", f.name)] + b1
      + [TextSectionOf("Trigger", f.trigger), TextSectionOf("State change reason", f.reason)] + b3;
    var tail := [FieldsSectionOf([MarkdownOf(Some("Previous state"), f.oldState), MarkdownOf(Some("New state"), f.newState)]),
                 TextSectionOf("Link to alarm", f.link),
                 DateContext(f.timestamp)];
    assert MessageBlocks(f) == head + tail;
    assert |b1| == (if Truthy(f.description) then 1 else 0);
    assert |b3| == (if DimensionsShown(f.dimensions) then 1 else 0);
    TextSectionsHead([TextSectionOf("Name", f.name)], b1,
                     [TextSectionOf("Trigger", f.trigger), TextSectionOf("State change reason", f.reason)], b3);
    LayoutOf(head, tail);
  }

  lemma TextSectionsHead(a: seq<Block>, b: seq<Block>, c: seq<Block>, d: seq<Block>)
    requires forall i :: 0 <= i < |a| ==> a[i].TextSection?
    requires forall i :: 0 <= i < |b| ==> b[i].TextSection?
    requires forall i :: 0 <= i < |c| ==> c[i].TextSection?
    requires forall i :: 0 <= i < |d| ==> d[i].TextSection?
    ensures forall i :: 0 <= i < |a + b + c + d| ==> (a + b + c + d)[i].TextSection?
  {
  }

  lemma LayoutOf(head: seq<Block>, tail: seq<Block>)
    requires |tail| == 3 && forall i :: 0 <= i < |head| ==> head[i].TextSection?
    ensures forall i :: 0 <= i < |head + tail| - 3 ==> (head + tail)[i].TextSection?
    ensures (head + tail)[|head + tail| - 3] == tail[0]
    ensures (head + tail)[|head + tail| - 2] == tail[1]
    ensures (head + tail)[|head + tail| - 1] == tail[2]
  {
  }

  /** The title and value of each text of the message, in the order `construct_slack_message` writes them. */
  function ExpectedEntries(f: MessageFields): seq<(string, string)> {
    [("Name", f.name)]
    + (if Truthy(f.description) then [("Description", f.description.s)] else [])
    + [("Trigger", f.trigger), ("State change reason", f.reason)]
    + (if DimensionsShown(f.dimensions) then [("Dimension(s)", f.dimensions.value)] else [])
    + [("Previous state", f.oldState), ("New state", f.newState), ("Link to alarm", f.link),
       ("", DateDirective(f.timestamp))]
  }

  /** No title of the message has a colon, so each reads back from its text. */
  lemma TitlesWithoutColon()
    ensures ':' !in "Name" && ':' !in "Description" && ':' !in "Trigger"
    ensures ':' !in "State change reason" && ':' !in "Dimension(s)"
    ensures ':' !in "Previous state" && ':' !in "New state" && ':' !in "Link to alarm"
  {
  }

  lemma TailEntries(f: MessageFields)
    ensures Entries([FieldsSectionOf([MarkdownOf(Some("Previous state"), f.oldState), MarkdownOf(Some("New state"), f.newState)]),
                     TextSectionOf("Link to alarm", f.link),
                     DateContext(f.timestamp)])
      == [("Previous state", f.oldState), ("New state", f.newState), ("Link to alarm", f.link),
          ("", DateDirective(f.timestamp))]
  {
    var states := [MarkdownOf(Some("Previous state"), f.oldState), MarkdownOf(Some("New state"), f.newState)];
    var fields := FieldsSectionOf(states);
    var link := TextSectionOf("Link to alarm", f.link);
    var date := DateContext(f.timestamp);
    TitlesWithoutColon();
    EntriesOfThree(fields, link, date);
    assert Entries([fields]) == [("Previous state", f.oldState), ("New state", f.newState)] by {
      FieldsSectionEntries(states);
      TwoFieldsEntries("Previous state", f.oldState, "New state", f.newState);
    }
    assert Entries([link]) == [("Link to alarm", f.link)] by {
      TextSectionEntries("Link to alarm", f.link);
    }
    assert Entries([date]) == [("", DateDirective(f.timestamp))] by {
      DateDirectiveRoundTrip(f.timestamp);
      ContextEntries(DateDirective(f.timestamp));
    }
    Concatenation4(("Previous state", f.oldState), ("New state", f.newState), ("Link to alarm", f.link),
                   ("", DateDirective(f.timestamp)));
  }

  /**
   * Reading every text of the message back gives each title with its value, in
   * order: `Description` exactly when the description is truthy, `Dimension(s)`
   * exactly when the dimensions text is truthy, and the untitled date last.
   */
  lemma MessageEntries(f: MessageFields)
    ensures Entries(MessageBlocks(f)) == ExpectedEntries(f)
  {
    var b0 := [TextSectionOf("Name", f.name)];
    var b1 := if Truthy(f.description) then [TextSectionOf("Description", f.description.s)] else [];
    var b2 := [TextSectionOf("Trigger", f.trigger), TextSectionOf("State change reason", f.reason)];
    var b3 := if DimensionsShown(f.dimensions) then [TextSectionOf("Dimension(s)", f.dimensions.value)] else [];
    var b4 := [FieldsSectionOf([MarkdownOf(Some("Previous state"), f.oldState), MarkdownOf(Some("New state"), f.newState)]),
               TextSectionOf("Link to alarm", f.link),
               DateContext(f.timestamp)];
    assert MessageBlocks(f) == b0 + b1 + b2 + b3 + b4;
    EntriesOfFive(b0, b1, b2, b3, b4);
    TitlesWithoutColon();
    assert Entries(b0) == [("Name", f.name)] by {
      TextSectionEntries("Name", f.name);
    }
    assert Entries(b1) == if Truthy(f.description) then [("Description", f.description.s)] else [] by {
      if Truthy(f.description) {
        TextSectionEntries("Description", f.description.s);
      }
    }
    assert Entries(b2) == [("Trigger", f.trigger), ("State change reason", f.reason)] by {
      EntriesOfTwo(b2[0], b2[1]);
      TextSectionEntries("Trigger", f.trigger);
      TextSectionEntries("State change reason", f.reason);
    }
    assert Entries(b3) == if DimensionsShown(f.dimensions) then [("Dimension(s)", f.dimensions.value)] else [] by {
      if DimensionsShown(f.dimensions) {
        TextSectionEntries("Dimension(s)", f.dimensions.value);
      }
    }
    TailEntries(f);
  }

  /** The titles of the message's texts, in order. */
  lemma MessageTitles(f: MessageFields)
    ensures Titles(ExpectedEntries(f)) ==
      ["Name"] + (if Truthy(f.description) then ["Description"] else [])
      + ["Trigger", "State change reason"] + (if DimensionsShown(f.dimensions) then ["Dimension(s)"] else [])
      + ["Previous state", "New state", "Link to alarm", ""]
  {
    var a := [("Name", f.name)];
    var b := if Truthy(f.description) then [("Description", f.description.s)] else [];
    var c := [("Trigger", f.trigger), ("State change reason", f.reason)];
    var d := if DimensionsShown(f.dimensions) then [("Dimension(s)", f.dimensions.value)] else [];
    var e := [("Previous state", f.oldState), ("New state", f.newState), ("Link to alarm", f.link),
              ("", DateDirective(f.timestamp))];
    assert ExpectedEntries(f) == a + b + c + d + e;
    TitlesAppend(a, b);
    TitlesAppend(a + b, c);
    TitlesAppend(a + b + c, d);
    TitlesAppend(a + b + c + d, e);
    assert Titles(a) == ["Name"];
    assert Titles(b) == if Truthy(f.description) then ["Description"] else [];
    assert Titles(c) == ["Trigger", "State change reason"];
    assert Titles(d) == if DimensionsShown(f.dimensions) then ["Dimension(s)"] else [];
    assert Titles(e) == ["Previous state", "New state", "Link to alarm", ""];
  }

  /** The titles every message carries differ from the two optional ones, and those from each other. */
  lemma FixedTitles()
    ensures var fixed := ["Name", "Trigger", "State change reason", "Previous state", "New state", "Link to alarm", ""];
      "Description" !in fixed && "Dimension(s)" !in fixed
    ensures "Description" != "Dimension(s)"
  {
  }

  /**
   * A `Description` text is in the message exactly when the description is
   * truthy, and a `Dimension(s)` text exactly when the dimensions text is.
   */
  lemma OptionalSections(f: MessageFields)
    ensures "Description" in Titles(ExpectedEntries(f)) <==> Truthy(f.description)
    ensures "Dimension(s)" in Titles(ExpectedEntries(f)) <==> DimensionsShown(f.dimensions)
  {
    MessageTitles(f);
    var a := ["Name"];
    var b: seq<string> := if Truthy(f.description) then ["Description"] else [];
    var c := ["Trigger", "State change reason"];
    var d: seq<string> := if DimensionsShown(f.dimensions) then ["Dimension(s)"] else [];
    var e := ["Previous state", "New state", "Link to alarm", ""];
    FixedTitles();
    assert "Description" !in a + c + e && "Dimension(s)" !in a + c + e;
    InFive("Description", a, b, c, d, e);
    InFive("Dimension(s)", a, b, c, d, e);
  }

  // ---------------------------------------------------------------------------
  // prepare_slack_message

  /**
   * `prepare_slack_message(message)`: the texts taken from the notification,
   * laid out by `construct_slack_message`; the first failing step decides the
   * error.
   */
  function PrepareSlackMessage(record: AlarmRecord): Result<Message, Error> {
    var fields :- ExtractFields(record);
    Success(SlackMessage(fields))
  }

  /**
   * Reading back the message laid out from the texts: one attachment, coloured
   * by the new state; seven to nine texts, the name first; `Description` and
   * `Dimension(s)` exactly when shown.
   */
  lemma SlackMessageOf(f: MessageFields)
    ensures var message := SlackMessage(f);
      var entries := Entries(message.attachments[0].blocks);
      && |message.attachments| == 1
      && message.attachments[0].color == Color(f.newState)
      && 7 <= |entries| <= 9
      && entries[0] == ("Name", f.name)
      && ("Description" in Titles(entries) <==> Truthy(f.description))
      && ("Dimension(s)" in Titles(entries) <==> DimensionsShown(f.dimensions))
  {
    MessageEntries(f);
    EntriesShape(f);
    OptionalSections(f);
  }

  /** The number of texts of the message, and the first of them. */
  lemma EntriesShape(f: MessageFields)
    ensures var entries := ExpectedEntries(f);
      7 <= |entries| <= 9 && entries[0] == ("Name", f.name)
  {
    var head := [("Name", f.name)]
      + (if Truthy(f.description) then [("Description", f.description.s)] else [])
      + [("Trigger", f.trigger), ("State change reason", f.reason)]
      + (if DimensionsShown(f.dimensions) then [("Dimension(s)", f.dimensions.value)] else []);
    var tail := [("Previous state", f.oldState), ("New state", f.newState), ("Link to alarm", f.link),
                 ("", DateDirective(f.timestamp))];
    assert ExpectedEntries(f) == head + tail;
    assert 3 <= |head| <= 5 && (head + tail)[0] == head[0];
  }

  /** The last four texts of the message: the states, the link and the date directive. */
  lemma MessageTail(f: MessageFields)
    ensures var entries := Entries(SlackMessage(f).attachments[0].blocks);
      && |entries| >= 4
      && entries[|entries| - 4..] == [("Previous state", f.oldState), ("New state", f.newState),
                                      ("Link to alarm", f.link), ("", DateDirective(f.timestamp))]
  {
    var head := [("Name", f.name)]
      + (if Truthy(f.description) then [("Description", f.description.s)] else [])
      + [("Trigger", f.trigger), ("State change reason", f.reason)]
      + (if DimensionsShown(f.dimensions) then [("Dimension(s)", f.dimensions.value)] else []);
    var tail := [("Previous state", f.oldState), ("New state", f.newState), ("Link to alarm", f.link),
                 ("", DateDirective(f.timestamp))];
    MessageEntries(f);
    assert ExpectedEntries(f) == head + tail;
    assert (head + tail)[|head + tail| - 4..] == tail;
  }

  /** The message is made exactly for a well-formed notification. */
  lemma PrepareSlackMessageSucceeds(record: AlarmRecord)
    ensures PrepareSlackMessage(record).Success? <==> WellFormedRecord(record)
    ensures PrepareSlackMessage(record).Success? ==>
      PrepareSlackMessage(record).value == SlackMessage(ExtractFields(record).value)
  {
    ExtractFieldsOf(record);
  }

  /**
   * The message made from a well-formed notification has one attachment, whose
   * colour depends on the new state alone; its texts read back, in order, as
   * the name, the description when truthy, the trigger sentence, the reason,
   * the dimensions when the list is present and not empty, and four more.
   */
  lemma PrepareSlackMessageOf(record: AlarmRecord)
    requires WellFormedRecord(record)
    ensures PrepareSlackMessage(record).Success?
    ensures var message := PrepareSlackMessage(record).value;
      var entries := Entries(message.attachments[0].blocks);
      && |message.attachments| == 1
      && message.attachments[0].color == Color(record.newStateValue.value)
      && 7 <= |entries| <= 9
      && entries[0] == ("Name", record.alarmName.value)
      && ("Description" in Titles(entries) <==> Truthy(record.alarmDescription.value))
      && ("Dimension(s)" in Titles(entries) <==>
            record.trigger.value.dimensions.Some? && record.trigger.value.dimensions.value != [])
  {
    PrepareSlackMessageSucceeds(record);
    var f := ExtractFields(record).value;
    ExtractFieldsOf(record);
    SlackMessageOf(f);
  }

  /**
   * The last four texts of the message made from a well-formed notification
   * are the previous and the new state, the console link of the ARN's region
   * and the alarm name, and the date directive of the state-change time.
   */
  lemma PrepareSlackMessageTail(record: AlarmRecord)
    requires WellFormedRecord(record)
    ensures PrepareSlackMessage(record).Success?
    ensures var message := PrepareSlackMessage(record).value;
      var entries := Entries(message.attachments[0].blocks);
      && |entries| >= 4
      && entries[|entries| - 4..] == [
           ("Previous state", record.oldStateValue.value),
           ("New state", record.newStateValue.value),
           ("Link to alarm", Link(Region(record.alarmArn.value).value, record.alarmName.value)),
           ("", DateDirective(DateTimes.Timestamp(DateTimes.ParseStateChangeTime(record.stateChangeTime.value).value)))]
  {
    PrepareSlackMessageSucceeds(record);
    var f := ExtractFields(record).value;
    assert && f.oldState == record.oldStateValue.value && f.newState == record.newStateValue.value
      && f.link == Link(Region(record.alarmArn.value).value, record.alarmName.value)
      && f.timestamp == DateTimes.Timestamp(DateTimes.ParseStateChangeTime(record.stateChangeTime.value).value) by {
      ExtractFieldsSuccess(record);
    }
    MessageTail(f);
  }

  // ---------------------------------------------------------------------------
  // Proof helpers: string literals split into the pieces the lemmas above
  // concatenate, and small facts about sequence concatenation. They state
  // nothing about the notification; the solver needs them spelled out.

  lemma ArnHead()
    ensures "arn:aws:cloudwatch:us-east-1" == "arn" + ":" + "aws" + ":" + "cloudwatch" + ":" + "us-east-1"
  {
  }

  lemma ArnPieces(arn: string)
    requires arn == "arn:aws:cloudwatch:us-east-1:123456789012:alarm:HighCPU"
    ensures arn == "arn:aws:cloudwatch:us-east-1" + ":123456789012:alarm:HighCPU"
  {
  }

  lemma LinkHalves()
    ensures LINK == LINK_HEAD + "{}#s=Alarms&alarm={}"
  {
  }

  lemma LinkFields()
    ensures "{}#s=Alarms&alarm={}" == "{}" + (LINK_ALARM + ("{}" + ""))
  {
  }

  lemma LinkPlainParts()
    ensures '{' !in LINK_HEAD && '{' !in LINK_ALARM
  {
    assert LINK_HEAD == "https://console.aws.amazon.com/" + "cloudwatch/home?region=";
    assert '{' !in "https://console.aws.amazon.com/";
    assert '{' !in "cloudwatch/home?region=";
  }

  lemma PrefixAndRest<T>(head: seq<T>, rest: seq<T>)
    ensures |head + rest| >= |head|
    ensures (head + rest)[..|head|] == head && (head + rest)[|head|..] == rest
  {
  }

  /** In `region` + `key` + `value`, where `key` ends with the last `=`, every piece is found again. */
  lemma KeyBeforeValue(region: string, key: string, value: string)
    requires key != [] && key[|key| - 1] == '=' && '=' !in value
    ensures var rest := region + (key + value);
      && LastIndex(rest, '=') == Some(|region| + |key| - 1)
      && rest[|region|..|region| + |key|] == key
      && rest[|region| + |key|..] == value
      && rest[..|region|] == region
  {
    var rest := region + (key + value);
    assert rest == (region + key[..|key| - 1]) + ['='] + value;
    LastIndexOf(region + key[..|key| - 1], '=', value);
  }

  lemma TriggerHalves()
    ensures TRIGGER_TEMPLATE == "{} {} {} {}{}" + TRIGGER_TAIL
  {
  }

  lemma TriggerHead(tail: string)
    ensures "{} {} {} {}{}" + tail == "{}" + (" " + ("{}" + (" " + ("{}" + (" " + ("{}" + ("{}" + tail)))))))
  {
  }

  lemma TriggerTailPieces()
    ensures TRIGGER_TAIL == " for " + ("{}" + (" period(s) of " + ("{}" + " seconds.")))
  {
    assert TRIGGER_TAIL == " for {} period(s) of " + "{} seconds.";
  }

  lemma SevenArguments<T>(a: T, b: T, c: T, d: T, e: T, f: T, g: T)
    ensures [a] + ([b] + ([c] + ([d] + ([e] + [f, g])))) == [a, b, c, d, e, f, g]
  {
  }

  lemma ExampleSentenceHead(head: string, tail: string)
    requires head == "Average CPUUtilization > 80 percent"
    ensures head + tail == "Average" + (" " + ("CPUUtilization" + (" " + (">" + (" " + ("80" + (" percent" + tail)))))))
  {
    assert head == "Average CPUUtilization" + " > 80 percent";
  }

  lemma ExampleSentenceTail(tail: string)
    requires tail == " for 3 period(s) of 300 seconds."
    ensures tail == " for " + ("3" + (" period(s) of " + ("300" + " seconds.")))
  {
    assert tail == " for 3 period(s) of " + "300 seconds.";
  }

  lemma ExampleSentenceText(sentence: string)
    requires sentence == "Average CPUUtilization > 80 percent for 3 period(s) of 300 seconds."
    ensures sentence == "Average" + (" " + ("CPUUtilization" + (" " + (">" + (" " + ("80" + (" percent"
      + (" for " + ("3" + (" period(s) of " + ("300" + " seconds.")))))))))))
  {
    var head := "Average CPUUtilization > 80 percent";
    var tail := " for 3 period(s) of 300 seconds.";
    assert sentence == head + tail;
    ExampleSentenceHead(head, tail);
    ExampleSentenceTail(tail);
  }

  lemma Concatenation4<T>(a: T, b: T, c: T, d: T)
    ensures [a, b] + [c] + [d] == [a, b, c, d]
  {
  }

  lemma InFive<T>(x: T, a: seq<T>, b: seq<T>, c: seq<T>, d: seq<T>, e: seq<T>)
    ensures x in a + b + c + d + e <==> x in a || x in b || x in c || x in d || x in e
  {
  }
}
