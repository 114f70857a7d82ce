# AWS entities: parsing and lookup

`AWSEntities.py` turns flat text describing AWS resources into objects and
selects objects by their attributes.

- **Batches and records.** A *batch* is a string of *records* separated by
  `%`. A record is a string of `key:value` fields separated by `,`.
- **Entities.** `parse_aws_data(aws_type, data_str)` builds one `AWSInstance`,
  `AWSVolume` or `AWSSnapshot` per non-blank record. The choice depends on
  whether `aws_type` is `"instance"`, `"volume"` or `"snapshot"`. Any other
  type gives the empty list.
- **Attribute dictionary.** Each entity keeps its attributes in `dict_attr`, an
  insertion-ordered string dictionary built by `_parse_string_dict`.
- **Lookup.** `aws_lookup(objects, property_dict)` keeps, in order, the objects
  whose `dict_attr` contains every pair of `property_dict`. The test is
  `dict_is_subset_of_dict`.
- **Rendering.** `__to_string` renders an object as
  `ClassName(k1 : v1 , k2 : v2)`.

The model is pure: the Python code builds each object once and never mutates
it afterwards. The only loop in the core is the one in `__to_string`, and it
is modelled as the method `Render.ToString`. The modules are:

- `Text`: the Python string operations the code relies on. These are
  `str.split` with a one-character separator, `str.join`, and `str.strip`
  with Python's whitespace set.
- `Attributes`: the insertion-ordered dictionary. `dict(pairs)` is modelled
  as `FromPairs`: a repeated key keeps its first position and takes its last
  value.
- `Entities`: covers the following.
  - The three entity classes, as a `Kind` tag on an `Entity` value.
  - `_parse_string_dict`, as `ParseRecord`. It fails with
    `BadField(element, length)` exactly where Python's `dict()` raises
    `ValueError: dictionary update sequence element #element has length
    length; 2 is required`.
  - `parse_aws_data`, as `ParseAwsData`.
- `Render`: `__to_string`.
- `Matcher`: `dict_is_subset_of_dict` and `aws_lookup`.
- `Examples`: records in the shape of the script's sample volumes.
- `Wrappers`, `Sequences`: `Option`/`Result`, and order-preserving
  subsequences.

### Errors and unknown kinds

- **Malformed records raise.** `x.split(':')` gives one piece for a field
  without a colon and three or more for a field with several colons; `dict()`
  then raises `ValueError` (line 22). The model returns `Err(BadField(i, n))`
  for the first such field, and `parse_aws_data` propagates it.
- **An unknown kind does not hide a malformed batch.** The docstring at line
  78 says an incorrect type returns the empty list. The dispatch table at
  lines 84-88 builds all three entity lists before `.get` at line 89, so a
  malformed batch raises for every `aws_type`, unknown ones included.
  `ParseAwsData` parses the records first and dispatches on the kind only when
  they all parse; `ParseAwsDataFailureIgnoresKind` and `ParseAwsDataError`
  state this behaviour.

## Model

| member | source | states |
|---|---|---|
| Text.LeadingSpace | AWSEntities.py:85 | the length of the longest prefix made only of Python whitespace: every character before it is whitespace, and the next character, if any, is not |
| Text.TrailingSpace | AWSEntities.py:85 | the same for the longest whitespace suffix |
| Text.StripEmptyIffBlank | AWSEntities.py:85 | `x.strip() == ''` exactly when every character of `x` is whitespace |
| Text.JoinTwo | AWSEntities.py:34 | `sep.join((a, b))` is `a`, then `sep`, then `b` |
| Text.JoinHasPart | AWSEntities.py:35 | every part occurs somewhere in the joined text |
| Text.Split | AWSEntities.py:22 | `str.split(sep)` gives exactly one more piece than there are separators in the input, and no piece contains the separator |
| Text.JoinSplit | AWSEntities.py:22 | joining the pieces of a split with the separator gives back the original string |
| Text.SplitJoin | AWSEntities.py:22 | splitting the join of a non-empty list of separator-free pieces gives back that list |
| Text.SplitTrailingSeparator | AWSEntities.py:85-87 | a separator at the end of the string adds one trailing empty piece and leaves the other pieces unchanged |
| Attributes.Put | AWSEntities.py:22 | dictionary assignment: the key then maps to the new value and every other key keeps its value. A key already present keeps its position; a new key goes last |
| Attributes.FromPairsKeys | AWSEntities.py:22 | the keys of `dict(pairs)` are exactly the keys that occur in the pairs |
| Attributes.FromPairsLastWins | AWSEntities.py:22 | each key maps to the value of its last occurrence in the pairs |
| Attributes.FromPairsOrder | AWSEntities.py:22 | the keys come in the order of their first occurrence in the pairs |
| Entities.KindOf | AWSEntities.py:84-89 | a recognised type string names exactly the kind it selects; no kind is named by any other string |
| Entities.ParseField | AWSEntities.py:22 | a field is accepted exactly when it has one colon, and then splits into the text before it and the text after it, neither containing a colon; otherwise the error is the piece count, which differs from 2 |
| Entities.ParsePairs | AWSEntities.py:22 | the fields all parse exactly when each has one colon, giving one pair per field in order; otherwise the error names the first bad field by its index and gives its piece count |
| Entities.ParseRecord | AWSEntities.py:14-22 | `_parse_string_dict` succeeds exactly when every comma-separated field has exactly one colon |
| Entities.ParseRecordError | AWSEntities.py:22 | on failure, the reported element is the first field without exactly one colon, and its reported length is that field's piece count |
| Entities.RecordPairs | AWSEntities.py:22 | a well-formed record yields one key/value pair per field, each being that field's parse |
| Entities.ParseRecordAttributes | AWSEntities.py:22 | the attribute keys of a parsed record are those of its fields, each with the value of its last field and ordered by first occurrence |
| Entities.ParseFieldFormat | AWSEntities.py:22 | parsing `key:value` gives back the pair when neither part contains a colon |
| Entities.ParsePairsFormat | AWSEntities.py:22 | the formatted fields of colon-free pairs parse back to the same pairs |
| Entities.ParseRecordFormat | AWSEntities.py:14-22 | a record written from a non-empty list of plain pairs parses to the dictionary of those pairs |
| Entities.Kept | AWSEntities.py:85-87 | every fragment kept by the `x.strip() != ''` filter has a non-whitespace character |
| Entities.KeptMembers | AWSEntities.py:85-87 | a fragment is kept exactly when it occurs in the input and is not blank |
| Entities.KeptFilters | AWSEntities.py:85-87 | the kept fragments are the non-blank fragments, in their original order and with their multiplicities |
| Entities.KeptAppend | AWSEntities.py:85-87 | filtering a concatenation concatenates the filtered parts |
| Entities.Collect | AWSEntities.py:85-87 | building a list of entities succeeds exactly when every construction succeeds, and keeps their results in order; otherwise it reports the first failure |
| Entities.ParseFragments | AWSEntities.py:85-87 | one construction per non-blank `%`-separated fragment, in order: step i is the record parse of the i-th non-blank fragment |
| Entities.ParseAwsData | AWSEntities.py:75-89 | with an unrecognised type a successful result is empty; with a recognised type it holds one entity per non-blank fragment |
| Entities.ParseAwsDataSucceeds | AWSEntities.py:84-89 | `parse_aws_data` succeeds exactly when every non-blank fragment is a well-formed record, whatever the type string |
| Entities.ParseAwsDataKnownKind | AWSEntities.py:84-89 | for a recognised type, each entity has the selected kind and the attributes parsed from the matching non-blank fragment |
| Entities.ParseAwsDataError | AWSEntities.py:85-89 | a failing batch reports the error of its first non-blank fragment that is not a record; every earlier fragment is a record |
| Entities.ParseAwsDataFailureIgnoresKind | AWSEntities.py:84-89 | a batch that fails fails with the same error for every type string, unknown ones included |
| Entities.ParseAwsDataTrailingSeparator | AWSEntities.py:85-87 | a trailing `%` does not change the result |
| Render.ToString | AWSEntities.py:24-36 | the loop produces the rendering `ClassName(k1 : v1 , ...)` of the entity |
| Render.PairTextsShape | AWSEntities.py:33-34 | one `k : v` text per item, in dictionary order |
| Render.PairTextsPut | AWSEntities.py:33-34 | after assigning a new key, its text comes last; reassigning a key changes only that key's text, in place |
| Render.RenderNoAttributes | AWSEntities.py:35-36 | an entity without attributes renders as `ClassName()` |
| Render.RenderFrame | AWSEntities.py:31-36 | the rendering starts with the class name and `(` and ends with `)` |
| Render.RenderDistinguishesKinds | AWSEntities.py:31 | entities of different kinds never render alike |
| Render.RenderShowsEveryAttribute | AWSEntities.py:33-36 | every attribute appears in the rendering as `k : v` |
| Matcher.Matches | AWSEntities.py:92-104 | an entity matches exactly when every criteria key is among its attributes with the same value. A missing key counts as a mismatch |
| Matcher.Lookup | AWSEntities.py:107-116 | the result is no longer than the input and holds only matching entities |
| Matcher.LookupFilters | AWSEntities.py:107-116 | the result is the order-preserving subsequence of matching entities: each entity occurs in it as often as it occurs in the input if it matches, and not at all otherwise |
| Matcher.LookupAppend | AWSEntities.py:116 | looking up a concatenation concatenates the lookups |
| Matcher.LookupEmptyCriteria | AWSEntities.py:104 | empty criteria select every entity |
| Matcher.LookupMissingKey | AWSEntities.py:104 | a criteria key that no entity has selects nothing |
| Matcher.LookupIdempotent | AWSEntities.py:107-116 | repeating a lookup with the same criteria changes nothing |
| Matcher.LookupCompose | AWSEntities.py:107-116 | two successive lookups with criteria that agree on shared keys equal one lookup with their union |
| Matcher.LookupMonotone | AWSEntities.py:107-116 | more criteria select a subsequence of what fewer criteria select |
| Examples.TwoFieldText | AWSEntities.py:120-131 | the text of a two-field record |
| Examples.TwoFieldDict | AWSEntities.py:22 | the dictionary of two fields with distinct keys |
| Examples.EmptyAttachedInstance | AWSEntities.py:125 | a field ending in its colon, like `attached_instance_id:`, gives the empty value |
| Examples.SingleRecordBatch | AWSEntities.py:84-89 | a single non-blank record without `%` gives one entity of a recognised kind, and none for an unrecognised type |
| Examples.Volume2200Batch | AWSEntities.py:126 | the shortened record of volume 2200 parses as one volume; parsed as `mistake` it gives nothing |
| Examples.LookupSingle | AWSEntities.py:116 | a one-entity list keeps its entity exactly when it matches |
| Examples.Volume2200Attached | AWSEntities.py:189-190 | volume 2200 matches `attached_instance_id` 1100 and does not match 1300 |
| Examples.AttachedVolumeLookup | AWSEntities.py:126 | on a batch holding only the shortened record of volume 2200, the lookup by `attached_instance_id` 1100 returns that volume and the lookup by 1300 returns nothing |
| Examples.TwoRecordBatch | AWSEntities.py:85-89 | two non-blank records joined by `%` give, for a recognised type, their two entities in order |
| Examples.InUseVolumesBatch | AWSEntities.py:126-128 | the batch of the shortened records of volumes 2200 and 2400 parses as volumes to those two entities, in order |
| Examples.InUseLookup | AWSEntities.py:107-116 | among volumes 2200 and 2400, a lookup by `attached_instance_id` returns volume 2200 for 1100, volume 2400 for 1300, and nothing for any other id |
| Examples.RunningInstanceVolumes | AWSEntities.py:186-190 | among the in-use volumes, the volumes of running instance 1100 are volume 2200 and running instance 1400 has none; volume 2400 belongs to the stopped instance 1300 |

## Left out

- The `__main__` demo script (lines 119-205), including its printing, is left out because it is I/O. The `Examples` module restates three of its volume records (2100, 2200 and 2400), shortened to their `id` and `attached_instance_id` fields; the full four-record batches and the lookups at lines 157-163 are not restated.
- The set difference of objects (line 204) is left out. It depends on Python object identity, and the model compares entities by value.
- `__str__` and `__repr__` (lines 38-42) are not modelled separately, because both only call `__to_string` (`Render.ToString`).
- The class hierarchy is not modelled: `AwsObj`, its empty `dict_attr` initialiser and the three subclasses become a `Kind` tag. A bare `AwsObj` has no use in the core.
- The `ValueError` message is modelled only by its element index and piece count, not as text.
- The code evaluates the dispatch dictionary eagerly and parses the batch three times. The model parses it once, because the three passes agree. Python stops at the first raising pass, which fails on the same fragment as the others.
- Arguments that are not strings are left out: a non-string batch, criteria values such as `None`, and keys of other types. The model types every key and value as a string.
- The demo's `dict_attr['id']` `KeyError` for an instance without `id` (line 190) is part of the demo script, which is left out.
