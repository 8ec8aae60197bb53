# CloudWatch alarm to Slack message, in Dafny

A model of the translator at the heart of `cloudwatch-to-slack`: an AWS Lambda
that receives a CloudWatch alarm notification (the decoded JSON `Message` of an
SNS record) and turns it into a Slack block-kit message. The model covers
`prepare_slack_message`, which reads the notification's keys and derives the
message's texts; `construct_slack_message`, which lays the texts out as Slack
blocks in a fixed order inside one coloured attachment; its three block
helpers; and the module's constant tables (console link template, state
colours, operator symbols).

Files and modules:

- `wrappers.dfy` (`Wrappers`): `Option` and `Result`.
- `strings.dfy` (`Strings`): `str.split`/`str.join`, ASCII case mapping and
  `str.capitalize`, decimal text of integers, and `str.format` for `{}`
  templates.
- `utf8.dfy` (`Utf8`): UTF-8 (RFC 3629) of Unicode scalar values, as
  `str.encode('utf-8')` writes them, with a strict decoder as its partner.
- `percent_encoding.dfy` (`PercentEncoding`): `urllib.parse.quote_plus` with
  `safe='()'` as CPython implements it (RFC 3986 sections 2.1 and 2.3), with a
  strict form decoder as its partner.
- `date_times.dfy` (`DateTimes`): `datetime.strptime(s, '%Y-%m-%dT%H:%M:%S.%f%z')`
  and `int(round(datetime.timestamp(...)))`, with exact integer arithmetic.
- `slack_blocks.dfy` (`SlackBlocks`): the Slack message as datatypes, the
  markdown/section helpers, and a reader (`Entries`) that gives back the title
  and value of every text.
- `alarm_translator.dfy` (`AlarmTranslator`): the notification, the tables,
  the region, link, dimensions, trigger sentence and timestamp,
  `ExtractFields`, the layout, the `ConstructSlackMessage` method and
  `PrepareSlackMessage`.

A notification is a datatype in which every key is an `Option`: a missing key
is `None` and makes the translation fail with `KeyError(key)`, in the order in
which the source reads the keys. An ARN with fewer than four `:`-separated
segments fails with `IndexError`, and a state-change time that `strptime`
rejects fails with `ValueError`. `PrepareSlackMessage` returns a
`Result<Message, Error>`.

## Model

| member | source | states |
|---|---|---|
| AlarmTranslator.Require | cloudwatch_to_slack/app.py:58-64 | `message[key]` gives the value exactly when the key is present, and `KeyError(key)` otherwise |
| AlarmTranslator.ColorTable | cloudwatch_to_slack/app.py:17-21 | red, green and amber belong to exactly `ALARM`, `OK` and `INSUFFICIENT_DATA`; every other state is `#808080` |
| AlarmTranslator.OperatorTable | cloudwatch_to_slack/app.py:23-28 | each of `>`, `>=`, `<`, `<=` belongs to exactly one of the four CloudWatch operators; every other operator is `unknown` |
| AlarmTranslator.Region | cloudwatch_to_slack/app.py:66 | `split(':')[3]` succeeds exactly when the ARN has at least three colons, else `IndexError`; the region holds no colon |
| AlarmTranslator.RegionOf | cloudwatch_to_slack/app.py:66 | the region is the segment after the third colon, whatever follows it |
| AlarmTranslator.RegionExample | cloudwatch_to_slack/app.py:66 | the ARN `arn:aws:cloudwatch:us-east-1:123456789012:alarm:HighCPU` gives `us-east-1` |
| AlarmTranslator.LinkTemplate | cloudwatch_to_slack/app.py:15 | `LINK` has two fields; formatting it puts the region after `?region=` and the name after `#s=Alarms&alarm=` |
| AlarmTranslator.LinkEncoding | cloudwatch_to_slack/app.py:68 | the name's encoding holds only ASCII letters, digits, `_ . - ~ ( ) + %`, and decodes back to the name |
| AlarmTranslator.LinkEncodingExamples | cloudwatch_to_slack/app.py:68 | a space is written `+`, `+` is `%2B`, `/` is `%2F`, and `(` is kept |
| AlarmTranslator.ParseLinkOf | cloudwatch_to_slack/app.py:68 | the console link gives back the region and the alarm name it was made from |
| AlarmTranslator.DimensionText | cloudwatch_to_slack/app.py:72 | `name: value` exists exactly when both keys are present; otherwise it is `KeyError('name')`, or `KeyError('value')` when only the value is missing |
| AlarmTranslator.DimensionTextsOf | cloudwatch_to_slack/app.py:72-73 | the texts exist exactly when every dimension is well formed, and then there is one `name: value` per dimension, in order |
| AlarmTranslator.DimensionsTextEmpty | cloudwatch_to_slack/app.py:72 | the joined dimensions text is empty exactly when the list is empty |
| AlarmTranslator.DimensionTextsFailure | cloudwatch_to_slack/app.py:72 | a failing list fails with the error of its first ill-formed dimension |
| AlarmTranslator.DimensionTextsKeyError | cloudwatch_to_slack/app.py:72 | that error is a `KeyError` naming a key that some dimension lacks |
| AlarmTranslator.UnitSuffix | cloudwatch_to_slack/app.py:77 | empty exactly for a null or empty unit; otherwise a space followed by the unit with its ASCII letters lower-cased, letter for letter |
| AlarmTranslator.TriggerTemplate | cloudwatch_to_slack/app.py:79-81 | the template has seven fields and puts its arguments in order between its fixed words |
| AlarmTranslator.TriggerSentenceOf | cloudwatch_to_slack/app.py:79-81 | the sentence is the capitalised statistic, the metric, the operator and the threshold joined by spaces, then the unit suffix, then `for N period(s) of P seconds.` |
| AlarmTranslator.TriggerSentenceExample | cloudwatch_to_slack/app.py:79-81 | `average`, `CPUUtilization`, `GreaterThanThreshold`, 80, `Percent`, 3 and 300 give `Average CPUUtilization > 80 percent for 3 period(s) of 300 seconds.` |
| AlarmTranslator.CapitalizeExample | cloudwatch_to_slack/app.py:80 | `average` is capitalised to `Average` |
| AlarmTranslator.UnitExample | cloudwatch_to_slack/app.py:77 | the unit `Percent` is written ` percent` |
| AlarmTranslator.NumberExamples | cloudwatch_to_slack/app.py:80-81 | the integers 80, 3 and 300 are written `80`, `3` and `300` |
| AlarmTranslator.StateChangeTimestamp | cloudwatch_to_slack/app.py:83 | fails with `ValueError` exactly when the time does not parse in the fixed format with ASCII digits (`DateTimes.ParseStateChangeTime`) |
| AlarmTranslator.OptionalDimensionsTextOf | cloudwatch_to_slack/app.py:72-73 | no `Dimensions` key gives `None`; otherwise the text exists exactly when every dimension is well formed, and it is empty exactly for an empty list |
| AlarmTranslator.TriggerTextOf | cloudwatch_to_slack/app.py:75-81 | the trigger sentence exists exactly when all seven trigger keys are present |
| AlarmTranslator.TriggerTextFailure | cloudwatch_to_slack/app.py:75-81 | a failing trigger fails with a `KeyError` naming a key the trigger lacks |
| AlarmTranslator.ExtractFieldsSuccess | cloudwatch_to_slack/app.py:57-86 | a notification that yields texts is well formed, and the texts are its name, description, trigger sentence, dimensions, reason, states, link and timestamp |
| AlarmTranslator.ExtractFieldsOf | cloudwatch_to_slack/app.py:57-86 | texts are produced exactly for a well-formed notification; they keep its name, description, states and reason; the link reads back to the ARN's region and the name; dimensions are absent exactly without the key and empty exactly for an empty list; the timestamp is that of the parsed time |
| AlarmTranslator.ExtractFieldsFailure | cloudwatch_to_slack/app.py:57-86 | a failure is a `KeyError` naming a key the notification lacks, an `IndexError` for an ARN with fewer than four segments, or a `ValueError` for a time that does not parse; a missing top-level key is reported in the order the source reads them (`AlarmName`, `AlarmDescription`, `OldStateValue`, `NewStateValue`, `NewStateReason`, `AlarmArn`) |
| AlarmTranslator.DateDirectiveRoundTrip | cloudwatch_to_slack/app.py:113 | the `<!date^...^ {date} at {time}\| >` text starts with `<` and gives back its Unix time |
| AlarmTranslator.ConstructSlackMessage | cloudwatch_to_slack/app.py:89-127 | appending and extending the block list step by step yields exactly the layout `SlackMessage` of the texts, in one attachment coloured by the new state |
| AlarmTranslator.MessageLayout | cloudwatch_to_slack/app.py:91-116 | six blocks, plus one each for a truthy description and truthy dimensions; text sections first, then the two-field states section, the link section, and the date context last |
| AlarmTranslator.MessageEntries | cloudwatch_to_slack/app.py:91-116 | reading every text back gives the titles and values in the source's order, with `Description` and `Dimension(s)` only when truthy |
| AlarmTranslator.MessageTitles | cloudwatch_to_slack/app.py:91-116 | the titles of the message's texts, in order |
| AlarmTranslator.OptionalSections | cloudwatch_to_slack/app.py:93-102 | a `Description` text appears exactly when the description is truthy, and a `Dimension(s)` text exactly when the dimensions text is |
| AlarmTranslator.MessageTail | cloudwatch_to_slack/app.py:104-116 | the last four texts are the previous state, the new state, the link and the date directive |
| AlarmTranslator.SlackMessageOf | cloudwatch_to_slack/app.py:89-125 | one attachment with the new state's colour, seven to nine texts with the name first, and the optional texts exactly when shown |
| AlarmTranslator.PrepareSlackMessageSucceeds | cloudwatch_to_slack/app.py:57-86 | a message is made exactly for a well-formed notification, and it is the layout of the extracted texts |
| AlarmTranslator.PrepareSlackMessageOf | cloudwatch_to_slack/app.py:57-125 | for a well-formed notification: one attachment whose colour depends on the new state alone; seven to nine texts, the name first; `Description` exactly for a truthy description; `Dimension(s)` exactly for a non-empty `Dimensions` list |
| AlarmTranslator.PrepareSlackMessageTail | cloudwatch_to_slack/app.py:57-116 | the message's last four texts are the two states, the console link of the ARN's region and name, and the date directive of the parsed state-change time |
| SlackBlocks.MarkdownOf | cloudwatch_to_slack/app.py:144-149 | an absent or empty title leaves the value alone; a title makes the text `*`, the title, `:*` and a line break, then the value |
| SlackBlocks.ParseMarkdownOf | cloudwatch_to_slack/app.py:144-149 | a non-empty title without a colon and its value are read back from the text |
| SlackBlocks.TextSectionEntries | cloudwatch_to_slack/app.py:130-134 | a titled text section reads back as its title and value |
| SlackBlocks.FieldsSectionEntries | cloudwatch_to_slack/app.py:137-141 | a fields section reads back as its fields, in order |
| SlackBlocks.TwoFieldsEntries | cloudwatch_to_slack/app.py:105-108 | the two-field states section reads back as both titles with their values |
| SlackBlocks.ContextEntries | cloudwatch_to_slack/app.py:110-115 | an untitled context text that does not start with `*` reads back with the empty title |
| SlackBlocks.EntriesAppend | cloudwatch_to_slack/app.py:96-116 | reading the texts back distributes over appending and extending the block list |
| Strings.Split | cloudwatch_to_slack/app.py:66 | one more part than separators, no part holds the separator, and joining the parts with it gives the text back |
| Strings.SplitFirst | cloudwatch_to_slack/app.py:66 | splitting a part, the separator and the rest gives that part and then the parts of the rest |
| Strings.Capitalize | cloudwatch_to_slack/app.py:80 | same length; the first character is not lower-case, the others are not upper-case, and each lower-cases as the input does |
| Strings.CapitalizeIdempotent | cloudwatch_to_slack/app.py:80 | capitalising twice is capitalising once |
| Strings.IntToStringRoundTrip | cloudwatch_to_slack/app.py:113 | `str()` of an integer reads back as that integer |
| Strings.FormatStep | cloudwatch_to_slack/app.py:68 | `str.format` copies text up to a `{}`, puts the next argument there, and goes on with the rest |
| Strings.FormatTwo | cloudwatch_to_slack/app.py:68 | a template with two fields takes its two arguments in order |
| Utf8.DecodeEncode | cloudwatch_to_slack/app.py:68 | decoding the UTF-8 encoding of a text gives the text back |
| Utf8.EncodeDecode | cloudwatch_to_slack/app.py:68 | the decoder accepts nothing but encodings |
| PercentEncoding.QuotePlusIsForm | cloudwatch_to_slack/app.py:68 | `quote_plus` encodes each UTF-8 byte on its own: a space as `+`, every other byte as `quote` does |
| PercentEncoding.QuotePlusAlphabet | cloudwatch_to_slack/app.py:68 | the encoding holds only unreserved ASCII characters, ASCII safe characters, `+` and `%` |
| PercentEncoding.QuotePlusAscii | cloudwatch_to_slack/app.py:68 | an ASCII character is kept when safe, written `+` when it is the space, and `%XX` otherwise |
| PercentEncoding.DecodeQuotePlus | cloudwatch_to_slack/app.py:68 | decoding undoes `quote_plus` whenever `%` and `+` are not safe |
| DateTimes.RoundToSeconds | cloudwatch_to_slack/app.py:83 | the nearest whole second, with a tie going to the even second |
| DateTimes.RoundToSecondsUnique | cloudwatch_to_slack/app.py:83 | half-even rounding leaves no choice |
| DateTimes.OrdinalOfNextDay | cloudwatch_to_slack/app.py:83 | consecutive calendar days have consecutive day numbers |
| DateTimes.ParseStateChangeTime | cloudwatch_to_slack/app.py:83 | whatever `strptime` accepts is a valid date-time |
| DateTimes.UtcOffsetRoundTrip | cloudwatch_to_slack/app.py:83 | `%z` reads back every offset of less than a day, as written by `isoformat` |
| DateTimes.ParseFormatRoundTrip | cloudwatch_to_slack/app.py:83 | reading a written date-time gives it back |
| DateTimes.StateChangeTimeExample | cloudwatch_to_slack/app.py:83 | `2023-01-15T10:30:00.000+0000` parses to that instant, which is 1673778600 seconds after the epoch |
| DateTimes.StateChangeTimeColonExample | cloudwatch_to_slack/app.py:83 | the same instant written with a `+00:00` offset parses as well |

## Left out

- `lambda_handler`, `send_alert_slack`, `WEBHOOK_URL` and the logging calls: they are I/O (the SNS event loop, the HTTP POST to the webhook, the environment and the logger).
- `json.loads` of the SNS message and `json.dumps(...).encode('utf-8')` of the result: the notification is a typed datatype, and `ConstructSlackMessage` and `PrepareSlackMessage` return the message as a `Message` datatype rather than JSON bytes.
- Ill-typed JSON values, and the `TypeError` and `AttributeError` they would raise, are not modelled: keys hold strings, the description and unit are strings or `null`, and numbers are integers or floats.
- AlarmTranslator.NumberText: the text of a float threshold or period is taken as given (its `repr`), not derived from a binary float.
- Strings.Capitalize: maps only ASCII letters; Python also changes the case of other Unicode letters.
- DateTimes.Timestamp: computes the exact instant in microseconds and rounds it half-to-even. Python divides into a binary float before `round`, which can differ from the exact rounding for instants far from the epoch.
- DateTimes.ParseStateChangeTime: takes the format string as fixed; other formats of `strptime`, and the locale, are not modelled. Numbers are read in ASCII digits only: `strptime`'s `\d` also matches the other Unicode decimal digits (Arabic-Indic `٢٠٢٣` for 2023, say), which Python accepts and the model rejects.
- AlarmTranslator.StateChangeTimestamp: fails with `ValueError` on a time written with non-ASCII decimal digits, which Python parses; otherwise it fails exactly when `strptime` does.
- AlarmTranslator.UnitSuffix: lower-cases only the ASCII letters of the unit; Python's `str.lower()` also maps other cased Unicode letters (`Ä` to `ä`).
- AlarmTranslator.LinkEncoding: texts are sequences of Unicode scalar values, so a name holding a lone surrogate, which `json.loads` can produce and on which `quote_plus` raises `UnicodeEncodeError`, cannot be written down in the model.
