# DIGIT sensor discovery, modelled in Dafny

This project models the scan-based discovery of DIGIT tactile sensors in
`digit_interface/digit_handler.py` (class `DigitHandler`). The handler works in three stages:

- It lists the entries of `/dev`.
- For each entry whose name starts with `video`, it resolves four hardware attributes from
  sysfs: `serial`, `manufacturer`, `product` and `bcdDevice`.
- It keeps the devices whose model contains `DIGIT`.

`find_digit` then picks the first kept device whose serial matches a query.

The host is reduced to data (`Host.Host`):

- the directory listing, as `Option<seq<string>>`, where `None` means listing `/dev` raised;
- for each device node, the attribute files that exist one level above its resolved sysfs
  device directory, as a map from file name to raw contents;
- an optional step `failAt` at which the resolver raises. Step 0 is `serial`, 1 is
  `manufacturer`, 2 is `product` and 3 is `bcdDevice`. A failure to resolve the device
  symlink is step 0, because it happens before the first read.

Files:

- `wrappers.dfy`: the `Option` type.
- `text.dfy`: the Python string operations the handler uses: `str.startswith`, the substring
  test `sub in s`, and `str.strip()`. `strip` removes the characters Python's `str.isspace()`
  accepts.
- `seqs.dfy`: a generic "keep the elements that pass, transform each one" function with its
  lemmas. This is the shape of the `list_digits` loop.
- `host.dfy`: the abstract host.
- `digit_handler.dfy`: the resolver, `_parse`, `list_digits` and `find_digit`. The three
  methods that loop or update state in the source are methods here. Each one is proved equal
  to a declarative function: `ExpectedInfo` resolves every field on its own, and `Digits` is a
  filter-then-map over the listing. The lemmas state the source's promises about those
  functions.

`_parse` builds one `dev_name = "/dev/" + name` per device, with no list of paths. One `try`
block covers all four attribute reads, so an error also skips every later read
(`ErrorKeepsEarlierFields`).

## Model

| member | source | states |
|---|---|---|
| `Text.ContainsIff` | digit_interface/digit_handler.py:84 | `sub in s` holds exactly when some position of `s` starts an exact, character-by-character (so case-sensitive) copy of `sub` |
| `Text.LeadingIn` | digit_interface/digit_handler.py:30 | the count `strip` cuts at the front is the longest run of whitespace there: all cut characters are whitespace and the next one is not |
| `Text.TrailingIn` | digit_interface/digit_handler.py:30 | the same at the back: every cut character is whitespace, and the last kept one is not |
| `Text.StripChars` | digit_interface/digit_handler.py:30 | the stripped value is a contiguous piece of the raw contents with no whitespace at either end, and only whitespace was cut away on each side |
| `Text.StripIdempotent` | digit_interface/digit_handler.py:30 | stripping an already stripped value changes nothing |
| `Seqs.PositionsSound` | digit_interface/digit_handler.py:81-85 | result j of the keep-and-transform loop is the image of the element at position `Positions[j]`, an element that passed the test |
| `Seqs.PositionsIncrease` | digit_interface/digit_handler.py:81-85 | those positions strictly increase: input order is kept and no element is taken twice |
| `Seqs.PositionsComplete` | digit_interface/digit_handler.py:81-85 | every element that passes the test has its position among them |
| `Seqs.FilterMapComplete` | digit_interface/digit_handler.py:81-85 | the image of every element that passes the test is in the result |
| `Seqs.FilterMapCongruent` | digit_interface/digit_handler.py:81-85 | two tests and transforms that agree on the input's elements (transforms only where the test passes) give the same result |
| `DigitHandler.AttributeValue` | digit_interface/digit_handler.py:26-48 | a field's value never carries surrounding whitespace, whether it is `Unknown` or the stripped contents of its file |
| `DigitHandler.ResolveSysfsInfo` | digit_interface/digit_handler.py:10-53 | the step-by-step resolver with its early exit on error returns exactly the field-by-field reference: each field is its file's stripped contents if the file exists and no earlier or current step raised, else `Unknown`; mapping `serial`→serial, `manufacturer`→manufacturer, `product`→model, `bcdDevice`→revision |
| `DigitHandler.ReadAttribute` | digit_interface/digit_handler.py:26-48 | one read block takes the dictionary from "what an error at this step leaves" to "what an error at the next step leaves" |
| `DigitHandler.ErrorKeepsEarlierFields` | digit_interface/digit_handler.py:22-53 | after an error at step j, fields read before j equal an error-free resolution and every later field is `Unknown`; the full four-field result is still returned |
| `DigitHandler.ParseDevice` | digit_interface/digit_handler.py:56-69 | `_parse` returns the record of the resolved fields, with `dev_name == "/dev/" + name` |
| `DigitHandler.RecordFields` | digit_interface/digit_handler.py:60-68 | each record field is its attribute file's stripped contents, or `"Unknown"` when the file is absent or an error came first; `dev_name` is `"/dev/" + name` |
| `DigitHandler.RecordFieldsTrimmed` | digit_interface/digit_handler.py:30-48 | no record field has surrounding whitespace |
| `DigitHandler.MarkerIsCaseSensitive` | digit_interface/digit_handler.py:84 | `"DIGIT"` passes the marker test; `"Digit"` and `"digit"` do not |
| `DigitHandler.ListDigits` | digit_interface/digit_handler.py:72-94 | the loop returns the records of the entries that start with `video` and whose model contains `DIGIT`, in listing order; a failed listing gives `[]` |
| `DigitHandler.ListedAreMarkedVideoNodes` | digit_interface/digit_handler.py:81-85 | each returned record has a model containing `DIGIT` and comes from a listed entry starting with `video`, with `dev_name == "/dev/" + entry` |
| `DigitHandler.ListingFollowsDirectory` | digit_interface/digit_handler.py:77-90 | the result is a subsequence of the listing: record j comes from entry `Positions[j]`, those positions strictly increase, and every kept entry's position is among them, so each kept entry appears exactly once |
| `DigitHandler.KeptEntriesListed` | digit_interface/digit_handler.py:81-85 | every `video` entry whose model contains `DIGIT` has its record in the result |
| `DigitHandler.DistinctEntriesDistinctDevices` | digit_interface/digit_handler.py:63 | when no directory entry repeats, no `dev_name` repeats in the result |
| `DigitHandler.NonVideoEntriesIgnored` | digit_interface/digit_handler.py:81-83 | entries not starting with `video` are never resolved: hosts that share a listing and agree on the sysfs data of every listed `video` entry give the same result, whatever the other entries' attributes |
| `DigitHandler.FindDigit` | digit_interface/digit_handler.py:97-107 | returns `None` exactly when no listed record has the serial; otherwise returns the first listed record, in listing order, whose serial equals the query exactly |

## Left out

- Real filesystem access is not modelled: `os.listdir`, `os.path.realpath`, `os.path.join`
  with `../`, `os.path.exists`, `open` and `read`. The host is an input value, and symlink and
  `..` resolution are the operating system's business.
- The model allows an error at step k even when attribute file k is absent. In the source,
  `os.path.exists` does not raise, so apart from symlink resolution an error needs the file to
  exist. The model therefore admits some hosts that cannot occur; it excludes none that can.
- Decoding of the attribute files is not modelled: contents are already strings. This covers
  decoding with the locale's text encoding (`open` is given no `encoding`) and the newline
  translation of text-mode reads. A decoding error is an error at that step.
- Names are Dafny strings, which hold only Unicode scalar values. Python represents undecodable
  bytes in `os.listdir` names as lone surrogates, and the model cannot express those names.
  Real `/dev` entries do not contain them.
- Logging (`logger.error`, `logger.debug`) has no effect on results and is not modelled.
- The Python exception types are not modelled. One optional "raises at step k" marker stands
  for all of them.
- In `_parse`, the `.get(key, "Unknown")` defaults never apply, because the resolver's
  dictionary always holds all four keys. The dictionary is a record (`SysfsInfo`) here, so
  those defaults do not appear.
- The tool-assisted discoverer (an external device-listing command and its text output) is
  not part of this model, and neither is upward sysfs traversal for the serial. Neither
  appears in `digit_handler.py`.
- Repeated calls on an unchanged host give the same result. No lemma states this, because
  `ListDigits` is specified by `Digits`, which is a function of the host.
