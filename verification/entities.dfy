/** The three resource kinds and the parser that turns a `%`-separated batch
    of `key:value,key:value` records into entities of one kind. */
module Entities {
  import opened Wrappers
  import opened Text
  import opened Attributes
  import opened Sequences

  /** AWSInstance, AWSVolume and AWSSnapshot differ only in their class. */
  datatype Kind = Instance | Volume | Snapshot

  /** The key of each kind in the dispatch table of `parse_aws_data`. */
  function KindName(k: Kind): string
  {
    match k
    case Instance => "instance"
    case Volume => "volume"
    case Snapshot => "snapshot"
  }

  /** `switch.get(aws_type)`: the kind whose name is `awsType`, if any. */
  function KindOf(awsType: string): (r: Option<Kind>)
    ensures r.Some? ==> KindName(r.value) == awsType
    ensures r.None? ==> forall k: Kind :: KindName(k) != awsType
  {
    if awsType == "instance" then Some(Instance)
    else if awsType == "volume" then Some(Volume)
    else if awsType == "snapshot" then Some(Snapshot)
    else None
  }

  /** The class name Python reports for an object of each kind. */
  function ClassName(k: Kind): string
  {
    match k
    case Instance => "AWSInstance"
    case Volume => "AWSVolume"
    case Snapshot => "AWSSnapshot"
  }

  /** One parsed record. `attrs` is written once, by the constructor. */
  datatype Entity = Entity(kind: Kind, attrs: Attrs)

  /** The ValueError `dict()` raises when element number `element` of the
      field sequence split into `length` pieces instead of 2. */
  datatype ParseError = BadField(element: nat, length: nat)

  /** A field `dict()` accepts: it splits on ':' into exactly two pieces. */
  predicate IsField(f: string)
  {
    Count(f, ':') == 1
  }

  /** A record `dict()` accepts: every comma-separated field is one. */
  predicate IsRecord(s: string)
  {
    forall i :: 0 <= i < |Split(s, ',')| ==> IsField(Split(s, ',')[i])
  }

  /** `x.split(':')` for one field, as `dict()` takes it: a field with one
      colon gives the texts before and after it; any other field gives the
      number of pieces it split into, which is then not 2. */
  function ParseField(f: string): (r: Result<Pair, nat>)
    ensures r.Ok? <==> IsField(f)
    ensures r.Ok? ==> f == r.value.0 + ":" + r.value.1 && ':' !in r.value.0 && ':' !in r.value.1
    ensures r.Err? ==> r.error == Count(f, ':') + 1 && r.error != 2
  {
    var pieces := Split(f, ':');
    if |pieces| != 2 then Err(|pieces|)
    else
      JoinSplit(f, ':');
      JoinTwo(pieces[0], pieces[1], ":");
      Ok((pieces[0], pieces[1]))
  }

  /** `x.split(':') for x in fields`, fed to `dict()`: every field must hold
      exactly one colon. `first` is the position of `fields[0]` in the whole
      record. On failure the error names the first field without exactly one
      colon and the number of pieces it split into. */
  function ParsePairs(fields: seq<string>, first: nat): (r: Result<seq<Pair>, ParseError>)
    ensures r.Ok? <==> forall i :: 0 <= i < |fields| ==> IsField(fields[i])
    ensures r.Ok? ==> |r.value| == |fields|
    ensures r.Ok? ==> forall i :: 0 <= i < |fields| ==> ParseField(fields[i]) == Ok(r.value[i])
    ensures r.Err? ==>
      && first <= r.error.element < first + |fields|
      && ParseField(fields[r.error.element - first]) == Err(r.error.length)
      && forall i :: 0 <= i < r.error.element - first ==> IsField(fields[i])
    decreases |fields|
  {
    if fields == [] then Ok([])
    else
      match ParseField(fields[0])
      case Err(n) => Err(BadField(first, n))
      case Ok(p) =>
        match ParsePairs(fields[1..], first + 1)
        case Err(e) => Err(e)
        case Ok(ps) => Ok([p] + ps)
  }

  /** `AwsObj._parse_string_dict`: `dict(x.split(':') for x in s.split(','))`.
      It succeeds exactly when every comma-separated field has one colon. */
  function ParseRecord(s: string): (r: Result<Attrs, ParseError>)
    ensures r.Ok? <==> IsRecord(s)
  {
    match ParsePairs(Split(s, ','), 0)
    case Err(e) => Err(e)
    case Ok(ps) => Ok(FromPairs(ps))
  }

  /** Every field of a record that fails to parse up to the reported one
      has one colon; the reported field does not, and split into the
      reported number of pieces. */
  lemma ParseRecordError(s: string)
    requires ParseRecord(s).Err?
    ensures var e, fields := ParseRecord(s).error, Split(s, ',');
      && e.element < |fields|
      && !IsField(fields[e.element])
      && e.length == Count(fields[e.element], ':') + 1
      && forall i :: 0 <= i < e.element ==> IsField(fields[i])
  {
  }

  /** The text `k:v` of one field. */
  function FormatField(p: Pair): string
  {
    p.0 + ":" + p.1
  }

  /** The text of a record holding the given pairs, fields joined by `,`. */
  function FormatRecord(ps: seq<Pair>): string
  {
    Join(seq(|ps|, i requires 0 <= i < |ps| => FormatField(ps[i])), ",")
  }

  /** Keys and values that the record syntax can carry. */
  ghost predicate Plain(ps: seq<Pair>)
  {
    forall i :: 0 <= i < |ps| ==> ':' !in ps[i].0 && ':' !in ps[i].1 && ',' !in ps[i].0 && ',' !in ps[i].1
  }

  /** A field formatted from a key and a value without colons parses back
      into that key and value; an empty value is allowed. */
  lemma ParseFieldFormat(p: Pair)
    requires ':' !in p.0 && ':' !in p.1
    ensures ParseField(FormatField(p)) == Ok(p)
  {
    JoinTwo(p.0, p.1, ":");
    SplitJoin([p.0, p.1], ':');
  }

  /** Parsing formatted fields gives back their pairs. */
  lemma {:induction false} ParsePairsFormat(ps: seq<Pair>, first: nat)
    requires Plain(ps)
    ensures ParsePairs(seq(|ps|, i requires 0 <= i < |ps| => FormatField(ps[i])), first) == Ok(ps)
    decreases |ps|
  {
    var fields := seq(|ps|, i requires 0 <= i < |ps| => FormatField(ps[i]));
    if ps != [] {
      ParseFieldFormat(ps[0]);
      ParsePairsFormat(ps[1..], first + 1);
      assert fields[1..] == seq(|ps[1..]|, i requires 0 <= i < |ps[1..]| => FormatField(ps[1..][i]));
      assert ps == [ps[0]] + ps[1..];
    }
  }

  /** Round trip: a non-empty record formatted from plain pairs parses into
      the dictionary built from those pairs. */
  lemma ParseRecordFormat(ps: seq<Pair>)
    requires |ps| >= 1 && Plain(ps)
    ensures ParseRecord(FormatRecord(ps)) == Ok(FromPairs(ps))
  {
    var fields := seq(|ps|, i requires 0 <= i < |ps| => FormatField(ps[i]));
    forall i | 0 <= i < |fields| ensures ',' !in fields[i] {
      assert fields[i] == ps[i].0 + ":" + ps[i].1;
    }
    SplitJoin(fields, ',');
    ParsePairsFormat(ps, 0);
  }

  /** The key:value pairs of a record that parses, in field order. */
  function RecordPairs(s: string): (ps: seq<Pair>)
    requires IsRecord(s)
    ensures |ps| == |Split(s, ',')|
    ensures forall i :: 0 <= i < |ps| ==> ParseField(Split(s, ',')[i]) == Ok(ps[i])
  {
    ParsePairs(Split(s, ','), 0).value
  }

  /** What a parsed record holds: one key for each distinct text before a
      colon, mapped to the text after the colon in the LAST field with that
      key, and listed in the order the keys first occur. */
  lemma ParseRecordAttributes(s: string)
    requires IsRecord(s)
    ensures var d, ps := ParseRecord(s).value, RecordPairs(s);
      && (forall k :: k in d.values <==> HasKey(ps, k))
      && (forall i :: 0 <= i < |ps| && IsLastWithKey(ps, i) ==> Get(d, ps[i].0) == Some(ps[i].1))
      && (forall a, b :: 0 <= a < b < |d.keys| ==> OccursBefore(ps, d.keys[a], d.keys[b]))
  {
    var ps := RecordPairs(s);
    FromPairsKeys(ps);
    FromPairsLastWins(ps);
    FromPairsOrder(ps);
  }

  /** The filter of `parse_aws_data`: `x.strip() != ''`. */
  predicate HasContent(x: string)
  {
    Strip(x) != []
  }

  /** `[x for x in frags if x.strip() != '']`. */
  function Kept(frags: seq<string>): (r: seq<string>)
    ensures forall i :: 0 <= i < |r| ==> HasContent(r[i])
    decreases |frags|
  {
    if frags == [] then []
    else if !HasContent(frags[0]) then Kept(frags[1..])
    else [frags[0]] + Kept(frags[1..])
  }

  /** The kept fragments are exactly the non-blank ones. */
  lemma {:induction false} KeptMembers(frags: seq<string>)
    ensures forall x :: x in Kept(frags) <==> x in frags && HasContent(x)
    decreases |frags|
  {
    if frags != [] {
      KeptMembers(frags[1..]);
      assert frags == [frags[0]] + frags[1..];
    }
  }

  /** ... in their original order, each as often as it occurs. */
  lemma {:induction false} KeptFilters(frags: seq<string>)
    ensures IsSubsequence(Kept(frags), frags)
    ensures forall x :: multiset(Kept(frags))[x] == if HasContent(x) then multiset(frags)[x] else 0
    decreases |frags|
  {
    if frags != [] {
      KeptFilters(frags[1..]);
      assert frags == [frags[0]] + frags[1..];
    }
  }

  /** Keeping non-blank fragments distributes over concatenation. */
  lemma {:induction false} KeptAppend(xs: seq<string>, ys: seq<string>)
    ensures Kept(xs + ys) == Kept(xs) + Kept(ys)
    decreases |xs|
  {
    if xs == [] {
      assert xs + ys == ys;
    } else {
      assert (xs + ys)[0] == xs[0];
      assert (xs + ys)[1..] == xs[1..] + ys;
      KeptAppend(xs[1..], ys);
    }
  }

  /** `list(...)` over a generator whose steps may raise: the values of all
      steps in order, or else the error of the first step that failed. */
  function Collect<T, E>(steps: seq<Result<T, E>>): (r: Result<seq<T>, E>)
    ensures r.Ok? <==> forall i :: 0 <= i < |steps| ==> steps[i].Ok?
    ensures r.Ok? ==> |r.value| == |steps| && forall i :: 0 <= i < |steps| ==> steps[i] == Ok(r.value[i])
    ensures r.Err? ==> exists i :: FirstFailure(steps, i) && steps[i] == Err(r.error)
    decreases |steps|
  {
    if steps == [] then Ok([])
    else
      match steps[0]
      case Err(e) =>
        assert FirstFailure(steps, 0);
        Err(e)
      case Ok(x) =>
        match Collect(steps[1..])
        case Err(e) =>
          assert forall i :: FirstFailure(steps[1..], i) ==> FirstFailure(steps, i + 1);
          Err(e)
        case Ok(xs) => Ok([x] + xs)
  }

  /** Step `i` is the first of `steps` that failed. */
  ghost predicate FirstFailure<T, E>(steps: seq<Result<T, E>>, i: int)
  {
    0 <= i < |steps| && steps[i].Err? && forall j :: 0 <= j < i ==> steps[j].Ok?
  }

  /** The parse of each non-blank `%`-fragment of a batch, in order. */
  function ParseFragments(data: string): (steps: seq<Result<Attrs, ParseError>>)
    ensures |steps| == |Kept(Split(data, '%'))|
    ensures forall i :: 0 <= i < |steps| ==> steps[i] == ParseRecord(Kept(Split(data, '%'))[i])
  {
    var records := Kept(Split(data, '%'));
    seq(|records|, i requires 0 <= i < |records| => ParseRecord(records[i]))
  }

  /** `parse_aws_data(aws_type, data_str)`. All three entity lists of the
      dispatch table are built before the lookup, so a malformed record makes
      the call fail whatever the kind; only then is the kind looked up. */
  function ParseAwsData(awsType: string, data: string): (r: Result<seq<Entity>, ParseError>)
    ensures r.Ok? && KindOf(awsType).None? ==> r.value == []
    ensures r.Ok? && KindOf(awsType).Some? ==> |r.value| == |Kept(Split(data, '%'))|
  {
    match Collect(ParseFragments(data))
    case Err(e) => Err(e)
    case Ok(ds) =>
      match KindOf(awsType)
      case None => Ok([])
      case Some(k) => Ok(seq(|ds|, i requires 0 <= i < |ds| => Entity(k, ds[i])))
  }

  /** A batch parses, whatever the kind, exactly when every non-blank
      `%`-fragment is a record `dict()` accepts. */
  lemma ParseAwsDataSucceeds(awsType: string, data: string)
    ensures ParseAwsData(awsType, data).Ok? <==>
      forall x :: x in Split(data, '%') && HasContent(x) ==> IsRecord(x)
  {
    var records := Kept(Split(data, '%'));
    var steps := ParseFragments(data);
    KeptMembers(Split(data, '%'));
    assert Collect(steps).Ok? <==> forall i :: 0 <= i < |records| ==> IsRecord(records[i]) by {
      assert forall i :: 0 <= i < |records| ==> (steps[i].Ok? <==> IsRecord(records[i]));
    }
  }

  /** A known kind yields exactly one entity per non-blank `%`-fragment, in
      order, each of that kind and holding that fragment's parsed record. */
  lemma ParseAwsDataKnownKind(awsType: string, data: string, k: Kind)
    requires KindOf(awsType) == Some(k)
    requires ParseAwsData(awsType, data).Ok?
    ensures var es, records := ParseAwsData(awsType, data).value, Kept(Split(data, '%'));
      && |es| == |records|
      && forall i :: 0 <= i < |records| ==> es[i].kind == k && ParseRecord(records[i]) == Ok(es[i].attrs)
  {
    var steps := ParseFragments(data);
    assert forall i :: 0 <= i < |steps| ==> steps[i] == ParseRecord(Kept(Split(data, '%'))[i]);
  }

  /** Whether the batch parses, and which error it raises, does not depend on
      the kind asked for. */
  lemma ParseAwsDataFailureIgnoresKind(t1: string, t2: string, data: string)
    ensures ParseAwsData(t1, data).Ok? == ParseAwsData(t2, data).Ok?
    ensures ParseAwsData(t1, data).Err? ==> ParseAwsData(t1, data) == ParseAwsData(t2, data)
  {
  }

  /** Record `i` of `records` is the first that `dict()` rejects, with error `e`. */
  ghost predicate FirstBadRecord(records: seq<string>, i: int, e: ParseError)
  {
    0 <= i < |records| && ParseRecord(records[i]) == Err(e) && forall j :: 0 <= j < i ==> IsRecord(records[j])
  }

  /** A failing batch raises the error of its first non-blank `%`-fragment
      that is not a record. */
  lemma ParseAwsDataError(awsType: string, data: string)
    ensures ParseAwsData(awsType, data).Err? ==>
      exists i :: FirstBadRecord(Kept(Split(data, '%')), i, ParseAwsData(awsType, data).error)
  {
    if ParseAwsData(awsType, data).Err? {
      var records := Kept(Split(data, '%'));
      var steps := ParseFragments(data);
      var e := ParseAwsData(awsType, data).error;
      var i :| FirstFailure(steps, i) && steps[i] == Err(e);
      assert FirstBadRecord(records, i, e);
    }
  }

  /** A trailing `%` (as at the end of the snapshot sample) adds no entity. */
  lemma ParseAwsDataTrailingSeparator(awsType: string, data: string)
    ensures ParseAwsData(awsType, data + "%") == ParseAwsData(awsType, data)
  {
    SplitTrailingSeparator(data, '%');
    KeptAppend(Split(data, '%'), [[]]);
    assert Kept([[]]) == [];
    assert Kept(Split(data + "%", '%')) == Kept(Split(data, '%'));
  }
}
