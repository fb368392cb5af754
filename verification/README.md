# SendStreak PHP client — a Dafny model

This project models the pure logic of the SendStreak PHP client library. It
covers two parts:

- **the `Contact` value object.** It holds an email address that passed a
  structural check, plus an insertion-ordered array of additional data with
  get, set and remove. It serialises flat, with `email` first.
- **the request shaping and failure classification of `SendStreakClient`.**
  This covers guarding the API key and building the mail payload. It also
  covers the layered option merge, in which `array_merge_recursive` combines
  `{json: body}`, then the defaults, then the caller's options. Finally it
  covers how each failed call becomes exactly one log line.

The model is written over a small PHP array datatype. PHP semantics the
library relies on are stated explicitly:

- string keys that spell a canonical 64-bit decimal integer become integer keys;
- the strings `""` and `"0"` are falsy;
- `array_merge_recursive` behaves as the `Php.*` rows of "## Model" state.

Modules:

| file | module | contents |
|---|---|---|
| wrappers.dfy | `Wrappers` | `Option`, `Result` |
| ordered_map.dfy | `OrderedMap` | key-unique pair sequences: `Find`, `Put` (assignment), `Delete` (`unset`), `PutAll` (a `foreach` of assignments) |
| php_array.dfy | `Php` | `Key`, `Value`, key coercion `KeyOf`, `array_merge_recursive` and what it keeps |
| email.dfy | `Email` | the email check as a predicate, plus a single-pass decision procedure proved equal to it |
| contact.dfy | `Contacts` | the contact, its mutators as state transitions, serialisation |
| client.dfy | `Client` | key guarding, payload, option merge, requests, failure logging |

Mutators that can throw return `Step(after, thrown)`. When `thrown` is set,
`after` is the unchanged object: the exception leaves the object as it was.

The HTTP transport's result is an input `Outcome`, which takes one of four
forms:

- a response it accepted;
- a `BadResponseException`, carrying the status and the message;
- any other throwable raised while the request was under way, carrying its
  message;
- a throwable raised by the call into the transport itself, before a promise
  for the request exists, carrying its message. The synchronous path logs it
  like any other failure. The asynchronous path has no `try` around that call,
  so the exception escapes to the caller and nothing is logged.

The logger is replaced by the list of lines the client writes.

### Behaviour worth knowing

- **The email rule.** The only email rule is the unanchored regular expression
  `.+@.+\..+` in UTF-8 mode, in which `.` matches everything except a line
  feed. So `local@domain.tld` is accepted only
  when the characters next to `@` and `.` are on the same line. For example,
  `"a\n@b.c"` is rejected even though every part is non-empty
  (`Email.LineFeedBeforeAtRejected`). Text around an address does not matter
  (`Email.SurroundingTextAccepted`).
- **Option merging.** The caller's options are combined with the built-in
  ones by `array_merge_recursive`, which never replaces a value. A caller's
  `base_uri` turns the option into a two-element list with the default first (`Client.UserBaseUriBecomesList`). A caller's
  `Authorization` header is sent alongside the bearer token, not instead of it
  (`Client.UserHeadersMerged`).
- **No type check in `setData`.** The doc comment of `setData` promises a type
  check, but the code performs none. `SetData` accepts any `Php.Value` and has
  no error case.

## Model

| member | source | states |
|---|---|---|
| Email.Matches | src/Contact.php:103 | the single-pass scan returns true exactly when some substring matches `.+@.+\..+`: an `@` with a character before it, at least one character and then a `.`, and one character after it, all on one line |
| Email.ShapeAccepted | src/Contact.php:101-108 | every `local@domain.tld` with non-empty parts and no line feed is accepted |
| Email.SurroundingTextAccepted | src/Contact.php:103 | the pattern is unanchored: text before or after an accepted address keeps it accepted |
| Email.LineFeedBeforeAtRejected | src/Contact.php:103 | `"a\n@b.c"` is rejected, because `.` does not match a line feed |
| Email.NoDotAfterAtRejected | src/Contact.php:101-108 | a string with no `.` after any `@` is rejected, the empty string included |
| Php.KeyOfInjective | src/Contact.php:59 | distinct key strings address distinct array entries, despite PHP turning integer strings into integer keys |
| Php.DecimalKeysAreIntegers | src/Contact.php:69 | the decimal spelling of every 64-bit integer, used as a key, becomes that integer key |
| Php.KeyOfExamples | src/Contact.php:69 | `"12"` becomes an integer key, while `"012"`, `"-0"`, `"1.5"` and `"email"` stay string keys |
| Php.MergeAppendsNewStrings | src/SendStreakClient.php:175 | merging a layer whose string keys are all new appends its entries unchanged, in order |
| Php.ArrayMergeStringKey | src/SendStreakClient.php:175-176 | after `array_merge_recursive`, each string key of either argument holds: the later value when only the later has it; the earlier when only the earlier has it; otherwise the recursive merge of two arrays, or the earlier value as a list with the later appended |
| Php.ArrayMergeLists | src/SendStreakClient.php:175-176 | the integer-keyed values of the result are those of the first argument followed by those of the second, and the result's keys are unique |
| Php.CombineListOrder | src/SendStreakClient.php:175-176 | when two values under one key are combined, the earlier value's list entries come before the later's |
| OrderedMap.Put | src/Contact.php:69 | assignment: the key reads back the value, other keys keep their values, a present key keeps its position, a new key is appended, keys stay unique |
| OrderedMap.Delete | src/Contact.php:83 | `unset`: only the key's entry is removed, the others keep their order and values |
| OrderedMap.PutAllKeys | src/Contact.php:92-96 | assigning the entries of an array one by one keeps the existing keys in place and appends the new keys in the source's order |
| Contacts.New | src/Contact.php:22-30 | construction succeeds exactly when the email is valid; on success the contact holds the given email and exactly the given data array; on failure the invalid-email error is raised |
| Contacts.SetEmail | src/Contact.php:45-52 | an invalid address throws and leaves the contact unchanged; a valid one replaces only the email; validity is preserved |
| Contacts.SetData | src/Contact.php:67-70 | the key reads back the value; every other key keeps its value; a present key keeps its position and a new key is appended; the email is unchanged |
| Contacts.RemoveData | src/Contact.php:77-84 | a missing key throws and changes nothing; a present key's entry is cut out, the key then reads null, and every other key keeps its value |
| Contacts.Serialize | src/Contact.php:86-99 | the keys are `email` and then the data keys in insertion order; `email` holds the data's `email` entry if there is one and the address otherwise; every other key holds the data's value |
| Contacts.RemoveAfterSet | src/Contact.php:67-84 | removing a key right after setting it never throws; it leaves what removing it from the original contact leaves, and for a key that was absent it restores the original contact |
| Contacts.LastSetWins | src/Contact.php:67-70 | of two writes to the same key the later wins, in place of the earlier |
| Contacts.SerializeExample | src/Contact.php:86-99 | `a@b.com` with data `name => X` serialises to `email => a@b.com, name => X` |
| Client.New | src/SendStreakClient.php:38-48 | construction fails exactly when the key is falsy (`""` or `"0"`); otherwise the key and options are kept |
| Client.SetApiKey | src/SendStreakClient.php:61-68 | a falsy key throws and changes nothing; any other key replaces the current key and leaves the options alone |
| Client.SetOptions | src/SendStreakClient.php:74-88 | the options read back exactly as set, and the key is kept |
| Client.MailPayload | src/SendStreakClient.php:157-168 | the payload is `rcpt` then `templateSlug`, holding the given strings; `variables` is present, holding the given array, exactly when the array is non-empty |
| Client.ClientOptionsLayers | src/SendStreakClient.php:170-189 | merging the body with the defaults only concatenates them, to `json`, `base_uri`, `headers` |
| Client.NoUserOptions | src/SendStreakClient.php:170-189 | with no options of the caller's, the request options are exactly the body, the base URI and the two headers, in that order |
| Client.ClientOptionsFind | src/SendStreakClient.php:170-178 | each string-keyed option holds the built-in value merged with the caller's |
| Client.NoOptionDropped | src/SendStreakClient.php:175-176 | an option key is present exactly when the built-in layers or the caller's options have it |
| Client.ClientOptionsList | src/SendStreakClient.php:176 | the integer-keyed options are the caller's, in order, and the keys are unique |
| Client.BodySentUnchanged | src/SendStreakClient.php:172-174 | unless the caller sets `json`, the body is sent unchanged |
| Client.BearerHeaderSent | src/SendStreakClient.php:180-189 | unless the caller sets `headers`, the headers are exactly `Authorization: Bearer <key>` and `Content-Type: application/json` |
| Client.UserBaseUriBecomesList | src/SendStreakClient.php:176 | a caller's `base_uri` does not replace the default: the option becomes the list of both, the default first |
| Client.UserHeadersMerged | src/SendStreakClient.php:176 | the caller's headers are merged into the defaults; a caller's `Authorization` is combined with the bearer token |
| Client.FailureLog | src/SendStreakClient.php:191-199 | success logs nothing; a 401 bad response logs the invalid-key line; any other bad response or throwable logs one line carrying its message |
| Client.LogLinesDistinct | src/SendStreakClient.php:191-199 | the invalid-key line differs from every error-message line, and an error-message line determines its message |
| Client.FailureLogIdentifiesCause | src/SendStreakClient.php:134-143 | equal logs come from the same kind of outcome: both successes, both 401 responses, or other failures with the same message |
| Client.Invoke | src/SendStreakClient.php:134-143 | one POST to the path with the merged options; the log is the outcome's classification, and nothing is thrown |
| Client.InvokeAsync | src/SendStreakClient.php:145-155 | the same request as the synchronous call; the call throws exactly when the transport refuses it before a promise exists, and then logs nothing; otherwise it logs what the synchronous call logs and returns a fulfilled promise, with the response only on success |
| Client.AsyncLogsLikeSync | src/SendStreakClient.php:134-155 | the asynchronous call logs what the synchronous one logs exactly when the transport did not refuse the call; a refused call is logged only by the synchronous path |
| Client.SendMail | src/SendStreakClient.php:97-100 | a POST to `/v1/messages` whose body is the mail payload |
| Client.SendMailAsync | src/SendStreakClient.php:109-112 | the same request as `SendMail`; an exception escapes, unlogged, exactly when the transport refuses the call; otherwise the same log as `SendMail` and a fulfilled promise |
| Client.UpdateContact | src/SendStreakClient.php:119-122 | a POST to `/v1/contacts` whose body is the serialised contact |
| Client.UpdateContactAsync | src/SendStreakClient.php:129-132 | the same request as `UpdateContact`; an exception escapes, unlogged, exactly when the transport refuses the call; otherwise the same log as `UpdateContact` and a fulfilled promise |
| Client.SendMailBody | src/SendStreakClient.php:97-100 | unless the caller sets `json`, the mail request's `json` option is exactly the payload |
| Client.UpdateContactBody | src/SendStreakClient.php:119-122 | unless the caller sets `json`, the contact request's `json` option is exactly the serialised contact, whose `email` is the address when the data has no `email` key |

## Left out

- The HTTP transport (`request`, `requestAsync`) is not modelled. Its result is the `Outcome` parameter. Which statuses count as a bad response is left to it.
- JSON encoding of the body is not modelled.
- Resolving `base_uri` against the path is not modelled.
- The scheduling of promises is not modelled. Only how the returned promise settles is.
- The logger and `NullLogger` are not modelled. The log is the list of lines written, whichever logger receives them.
- Exceptions raised inside the logger or the failure handler are not modelled.
- Floats and objects are not part of `Php.Value`. The library passes them through untouched. The merge treats an object like an array, and that case is not modelled.
- `preg_match` fails on invalid UTF-8 under the `u` flag. Strings here are sequences of code points, so that failure cannot arise.
- `Php.NextIndex` uses the rule of PHP before 8.3: one past the largest integer key, and 0 when all keys are negative. PHP 8.3 starts from one past a negative maximum, and PHP also remembers the next index of an array across deletions; neither is tracked. The two rules can disagree when the caller's options contain `json`: the caller's value is then merged into the request body, and the body of `updateContact` keeps the contact's integer keys. For data `[-5 => x]` and a caller `json => ['y']`, the model appends `y` under key 0 where PHP 8.3 uses -4. A caller's array whose remembered next index lies above its largest key is likewise appended to at a lower index here.
- `Php.NextIndex` has no upper bound: PHP cannot append after the key `PHP_INT_MAX`, while the model appends at `PHP_INT_MAX + 1`.
- The recursion guard of `array_merge_recursive` is not modelled, because values here are finite trees.
- Exception message texts are not modelled. The model keeps only which error is raised, and for contacts the offending address or key.
- The namespace of `Contact` differs between the two source files. It is treated as one class.
- `Client.UpdateContact` requires the contact's data to have unique keys. Every PHP array has that property.
