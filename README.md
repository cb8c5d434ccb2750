# Evolution API client: group-message filter and carpool group classifier

This project models the decision logic of a small Python client for the
Evolution API, a gateway that bridges WhatsApp to HTTP. The client fetches
messages and groups over HTTP. It then narrows them down in memory, in two
places:

- **Message group filter** (`find_messages`). The gateway answers a search
  for a group id with a coarse list of messages. The client keeps, in input
  order, each message that has a non-empty content block and a non-empty
  sender-key-distribution payload whose `groupId` equals the requested id
  exactly. The source writes this as a loop with two `continue`s and an
  `append`. Here it is the method `MessageFilter.FindMessages`, proved equal
  to the specification function `MessageFilter.FilterByGroup`.
- **Carpool group classifier** (`get_carpool_groups`). This is a list
  comprehension. It keeps a group when its case-folded subject (missing
  subject = `""`) is non-empty, contains one of the inclusion keywords
  `carona`, `rota`, `solidaria`, `solidÃ¡ria`, `vagas` as a substring, and
  contains the exclusion keyword `LDO` nowhere. Both lists are folded too.
  Here it is the function `GroupClassifier.CarpoolGroups`.

The record shapes of `evolution_types.py` are datatypes in `EvolutionTypes`.
A field typed `X | None` is an `Option<X>`. The union
`messageTimestamp: int | MessageTimestamp` is the datatype `Timestamp`, with
one constructor per form. Both selections are instances of one generic,
order-preserving `Sequences.Filter`. Their properties are proved once for
`Filter` and restated for each selection.

Files:

- `evolution_types.dfy`: module `EvolutionTypes`, the records and the value a timestamp denotes.
- `sequences.dfy`: module `Sequences`, generic `Filter` and `IsSubsequence` with their lemmas.
- `text.dfy`: module `Text`, case folding (`str.casefold`) and the substring test (`w in s`).
- `message_filter.dfy`: module `MessageFilter`, the `find_messages` loop and its properties.
- `group_classifier.dfy`: module `GroupClassifier`, the keyword lists, the classifier and its properties.

Points where the model follows the code rather than the type declarations:

- `Group.subject` is declared required (`evolution_types.py:6`). The
  classifier reads it as `group.get("subject", "")`, so the model lets it be
  absent.
- `Message.message` is declared required (`evolution_types.py:98`). The
  filter reads it with `.get` and tests its truthiness, so the model lets it
  be absent. It also lets it be an empty object, because an empty dict is
  falsy in Python.
- The fourth inclusion keyword is the mis-encoded `"solidÃ¡ria"`
  (U+00C3 U+00A1), exactly as in `main.py:136`. One might expect a subject
  such as "Rota Solidária" to match through a keyword `solidária`; the code
  has no such keyword. "Rota Solidária" is still kept, because of
  `rota`. But a subject of just "Solidária" is dropped
  (`AccentedSolidariaNotMatched`).
- The content-emptiness test (`main.py:85`) never changes the outcome. A
  content block that holds a sender-key payload is not empty. So a message
  is kept exactly when its sender-key payload names the group
  (`KeepsMessage`), and the whole result list equals the selection on the
  payload alone (`FilterByGroupIgnoresEmptiness`).

## Records

The record shapes are datatypes in `EvolutionTypes`. They carry no
contracts of their own; the filters above read them.

- `Group` (`evolution_types.py:4-14`): `id` and the other string fields are always present; `participants`, `description` and `creation` are `Option`s; `subject` is an `Option` because the classifier reads it with a default.
- `MessageKey` (`evolution_types.py:17-23`): `remoteJid`, `fromMe` and `id` are always present; `participant` is an `Option`.
- `MessageTimestamp` (`evolution_types.py:26-31`): the `{low, high, unsigned}` record.
- `Timestamp` (`evolution_types.py:101`): `PlainTimestamp(int)` or `LongTimestamp(MessageTimestamp)`; both forms are valid values.
- `DisappearingMode`, `ContextInfo`, `ExtendedTextMessage` (`evolution_types.py:34-58`): nested shapes, carried unread.
- `SenderKeyDistributionMessage` (`evolution_types.py:61-65`): `groupId` is always present.
- `MessageContent` (`evolution_types.py:68-73`): optional extended-text and sender-key payloads, plus the names of unmodelled content kinds; `IsEmpty` is Python's falsiness of the object.
- `DeviceListMetadata`, `MessageContextInfo` (`evolution_types.py:76-90`): nested shapes, carried unread.
- `Message` (`evolution_types.py:93-104`): `key` is always present; `message` is an `Option` because the filter reads it with `.get`.

## Model

| member | source | states |
|---|---|---|
| `MessageFilter.KeepsMessage` | main.py:84-91 | The loop body's three tests (non-empty content block, non-empty sender-key payload, equal `groupId`) keep a message if and only if its sender-key payload names the requested group; the emptiness test never decides. |
| `MessageFilter.FilterByGroup` | main.py:82-93 | The selection is no longer than the fetched list, and every message in it is a fetched message whose sender-key payload names the requested group. |
| `MessageFilter.FilterByGroupIgnoresEmptiness` | main.py:84-91 | The whole result list, repeats and order included, equals the selection on the sender-key payload alone. |
| `MessageFilter.FindMessages` | main.py:82-93 | The loop that skips messages without content, skips those without a sender-key payload and appends those whose `groupId` matches returns exactly `FilterByGroup(data, remoteJid)`. |
| `MessageFilter.FilterByGroupSelects` | main.py:84-91 | Soundness and completeness: a message is returned if and only if it is one of the fetched messages, has a content block with a sender-key payload, and that payload's `groupId` equals the requested id (exact, case-sensitive). |
| `MessageFilter.FilterByGroupPreservesOrder` | main.py:82-93 | The result is a subsequence of the fetched list, in the original order, and no longer than it. |
| `MessageFilter.FilterByGroupDropsUnmarked` | main.py:84-89 | A message with no or an empty content block, or no sender-key payload, is never returned, whatever group id is requested. |
| `MessageFilter.FilterByGroupIdempotent` | main.py:82-93 | Filtering the filtered list again with the same group id returns it unchanged. |
| `Sequences.Filter` | main.py:140-146 | An order-preserving selection is no longer than its input, and everything it returns is in the input and satisfies the test. |
| `Sequences.FilterSnoc` | main.py:83-91 | Selecting over a list extended by one element appends that element exactly when it passes the test. This is the step the append loop takes. |
| `GroupClassifier.FoldedKeywords` | main.py:136-139 | The folded keyword lists are `carona`, `rota`, `solidaria`, `solidã¡ria` (the capital Ã folds, ¡ does not), `vagas`, and for exclusion `ldo`. |
| `GroupClassifier.IsCarpool` | main.py:143-145 | A group passes if and only if its subject is non-empty, its fold contains the fold of one of the five literal inclusion keywords, and it does not contain `ldo`. |
| `GroupClassifier.CarpoolGroups` | main.py:140-146 | The comprehension's result is a subsequence of the input groups (original order), and every group in it passes `IsCarpool`. |
| `GroupClassifier.CarpoolGroupsSelects` | main.py:140-146 | Soundness and completeness: a group is returned if and only if it is an input group that passes the classifier's test. |
| `GroupClassifier.CarpoolGroupHasKeyword` | main.py:143-144 | Every returned group has a non-empty subject whose fold contains the fold of one of the source's inclusion keywords. |
| `GroupClassifier.ExclusionOverridesInclusion` | main.py:137-145 | A group whose subject contains `LDO` in any casing is never returned, whatever inclusion keywords it also contains. |
| `GroupClassifier.KeywordInAnyCaseIncluded` | main.py:138-145 | An input group is returned when its subject contains an inclusion keyword in any casing and its folded subject does not contain `ldo`. |
| `GroupClassifier.NoSubjectDropped` | main.py:143 | A group with a missing or empty subject is never returned. |
| `GroupClassifier.AccentedSolidariaNotMatched` | main.py:136 | A group whose subject is "Solidária" alone is not a carpool group: the fourth keyword is the mis-encoded spelling, and no keyword matches. |
| `GroupClassifier.CarpoolGroupsPreservesOrder` | main.py:140-146 | The result is a subsequence of the input groups, in the original order, and no longer than it. |
| `GroupClassifier.CarpoolGroupsIdempotent` | main.py:140-146 | Running the comprehension again on its own output returns it unchanged. This is not true of `get_carpool_groups` as a whole: on an empty first result it refetches all groups over the network (main.py:134-135). |
| `Text.FoldChar` | main.py:138-139 | Folding one character is a projection: the result is always a folded character, and a folded character is its own fold. |
| `Text.CaseFold` | main.py:143 | `casefold()` keeps the length and yields only folded characters. |
| `Text.Contains` | main.py:144-145 | `word in subject`: the empty word is in every subject, and a contained word is no longer than the subject. |
| `Text.ContainsIffOccurs` | main.py:144 | The substring search finds a word if and only if the word occurs as a slice at some index. |
| `Text.ContainsCaseFold` | main.py:143-144 | If a subject contains a word, the folded subject contains the folded word. |
| `Text.CaseFoldIdempotent` | main.py:138 | Folding an already folded string leaves it unchanged. |
| `EvolutionTypes.PlainAndLongAgree` | evolution_types.py:101 | A plain-integer timestamp and the `{low, high, unsigned}` record with that value as `low` and `high = 0` denote the same instant, for either signedness flag. |
| `EvolutionTypes.LongRoundTrip` | evolution_types.py:26-31 | Splitting a 64-bit value into signed 32-bit `low`/`high` words and reading them back gives the value again, in the unsigned and the signed range. |

## Left out

- HTTP calls, URLs, headers, the 60-second timeout and JSON decoding (`main.py:29-79`, `main.py:96-129`) are network I/O. The filter starts from the decoded list.
- Building the `findMessages` and `sendText` request bodies (`main.py:64-71`, `main.py:104-107`) only feeds the HTTP calls.
- Environment and configuration loading, logging and `main()` (`main.py:11-26`, `main.py:149-161`) are process set-up.
- `GroupClassifier.CarpoolGroups` classifies the list it is given. When `get_carpool_groups` gets `None` or an empty list, the source first fetches all groups over the network (`main.py:134-135`). So for an empty input the model returns `[]`, while the source would classify the fetched list.
- The `KeyError` that a non-empty sender-key payload without `groupId` raises (`main.py:90`) is not modelled. The type makes `groupId` required, so a present payload always has it.
- The `AttributeError` that a JSON `null` subject would raise in `casefold()` is not modelled. A subject is either a string or absent.
- A content-block key holding JSON `null` is treated as absent. This only affects whether the content block counts as empty, and emptiness never changes the filter's result (see `FilterByGroupSelects`).
- `Text.CaseFold`: the case-folding table is followed for code points up to U+00FF, except that ß folds to itself instead of `ss`. Code points above U+00FF are left unchanged. Full Unicode `str.casefold` is a library call.
- `EvolutionTypes.Instant`: the source only declares the `{low, high, unsigned}` shape. Reading it as a 64-bit integer (high word, then low word) is the gateway's protobuf convention, not something the client computes.
- The Python list returned by `find_messages` holds the same dict objects as the input. The model works on values, so object identity is not captured.
- The nested shapes `ContextInfo`, `DisappearingMode`, `DeviceListMetadata` and `MessageContextInfo` are declared as datatypes, but nothing reads them.
