/** Worked examples in the shape of the script's sample volumes (shortened to
    two fields): a volume whose `attached_instance_id` is empty, one-record
    and two-record batches, and the lookup of the volumes attached to the
    running sample instances. */
module Examples {
  import opened Wrappers
  import opened Text
  import opened Attributes
  import opened Entities
  import opened Matcher

  /** The text of a two-field record. */
  lemma TwoFieldText(k1: string, v1: string, k2: string, v2: string)
    ensures FormatRecord([(k1, v1), (k2, v2)]) == k1 + ":" + v1 + "," + k2 + ":" + v2
  {
    var ps := [(k1, v1), (k2, v2)];
    var fields := seq(|ps|, i requires 0 <= i < |ps| => FormatField(ps[i]));
    assert fields == [k1 + ":" + v1, k2 + ":" + v2];
    JoinTwo(fields[0], fields[1], ",");
  }

  /** The dictionary of a two-field record with distinct keys. */
  lemma TwoFieldDict(k1: string, v1: string, k2: string, v2: string)
    requires k1 != k2
    ensures FromPairs([(k1, v1), (k2, v2)]) == Dict([k1, k2], map[k1 := v1, k2 := v2])
  {
    var ps := [(k1, v1), (k2, v2)];
    assert ps[..1] == [(k1, v1)] && ps[..1][..0] == [];
    assert FromPairs(ps[..1]) == Dict([k1], map[k1 := v1]) by {
      assert Empty.keys + [k1] == [k1];
    }
    assert k2 !in FromPairs(ps[..1]).values;
  }

  /** The pairs of sample volume 2100, shortened to two fields. */
  function Volume2100(): seq<Pair>
  {
    [("id", "2100"), ("attached_instance_id", "")]
  }

  lemma Volume2100Text()
    ensures FormatRecord(Volume2100()) == "id:2100,attached_instance_id:"
  {
    TwoFieldText("id", "2100", "attached_instance_id", "");
  }

  lemma Volume2100Dict()
    ensures Plain(Volume2100())
    ensures FromPairs(Volume2100()) == Dict(["id", "attached_instance_id"], map["id" := "2100", "attached_instance_id" := ""])
  {
  }

  /** A field with nothing after its colon gives the empty value. */
  lemma EmptyAttachedInstance()
    ensures ParseRecord("id:2100,attached_instance_id:") ==
      Ok(Dict(["id", "attached_instance_id"], map["id" := "2100", "attached_instance_id" := ""]))
  {
    Volume2100Text();
    Volume2100Dict();
    ParseRecordFormat(Volume2100());
  }

  /** A batch that is a single non-blank record, with no `%`. */
  lemma SingleRecordBatch(awsType: string, s: string, d: Attrs)
    requires '%' !in s && HasContent(s) && ParseRecord(s) == Ok(d)
    ensures KindOf(awsType).None? ==> ParseAwsData(awsType, s) == Ok([])
    ensures KindOf(awsType).Some? ==> ParseAwsData(awsType, s) == Ok([Entity(KindOf(awsType).value, d)])
  {
    SplitJoin([s], '%');
    assert Split(s, '%') == [s];
    assert Kept([s]) == [s];
    assert ParseFragments(s) == [Ok(d)];
    var steps := ParseFragments(s);
    assert steps == [Ok(d)];
    assert Collect(steps).Ok?;
    assert Collect(steps).value == [d] by {
      var v := Collect(steps).value;
      assert |v| == 1 && steps[0] == Ok(v[0]);
    }
    if KindOf(awsType).Some? {
      var k := KindOf(awsType).value;
      assert seq(1, i requires 0 <= i < 1 => Entity(k, [d][i])) == [Entity(k, d)];
    }
  }

  /** Sample volume 2200, shortened to two fields. */
  function Volume2200(): seq<Pair>
  {
    [("id", "2200"), ("attached_instance_id", "1100")]
  }

  function Volume2200Attrs(): Attrs
  {
    Dict(["id", "attached_instance_id"], map["id" := "2200", "attached_instance_id" := "1100"])
  }

  /** The record of volume 2200, shortened to two fields. */
  const Volume2200Record: string := "id:2200,attached_instance_id:1100"

  lemma Volume2200Text()
    ensures FormatRecord(Volume2200()) == Volume2200Record
  {
    TwoFieldText("id", "2200", "attached_instance_id", "1100");
  }

  lemma Volume2200Dict()
    ensures Plain(Volume2200())
    ensures FromPairs(Volume2200()) == Volume2200Attrs()
  {
  }

  /** The text of volume 2200 has no `%`. */
  lemma Volume2200NoSeparator()
    ensures '%' !in Volume2200Record
  {
  }

  /** The text of volume 2200 is not blank. */
  lemma Volume2200HasContent()
    ensures HasContent(Volume2200Record)
  {
    assert !IsWhitespace(Volume2200Record[0]);
    StripEmptyIffBlank(Volume2200Record);
  }


  /** The record of volume 2200 parses to its two attributes. */
  lemma Volume2200Parse()
    ensures ParseRecord(Volume2200Record) == Ok(Volume2200Attrs())
  {
    Volume2200Text();
    Volume2200Dict();
    ParseRecordFormat(Volume2200());
  }

  /** Parsed as volumes, the one-record batch gives one volume; parsed as
      the unknown kind "mistake", it gives none. */
  lemma Volume2200Batch()
    ensures ParseAwsData("volume", Volume2200Record) == Ok([Entity(Volume, Volume2200Attrs())])
    ensures ParseAwsData("mistake", Volume2200Record) == Ok([])
  {
    Volume2200Parse();
    Volume2200NoSeparator();
    Volume2200HasContent();
    SingleRecordBatch("volume", Volume2200Record, Volume2200Attrs());
    SingleRecordBatch("mistake", Volume2200Record, Volume2200Attrs());
  }

  /** A one-entity list keeps its entity exactly when it matches. */
  lemma LookupSingle(e: Entity, criteria: Criteria)
    ensures Lookup([e], criteria) == if Matches(e, criteria) then [e] else []
  {
  }

  /** Volume 2200 is attached to instance 1100, not to 1300. */
  lemma Volume2200Attached()
    ensures Matches(Entity(Volume, Volume2200Attrs()), map["attached_instance_id" := "1100"])
    ensures !Matches(Entity(Volume, Volume2200Attrs()), map["attached_instance_id" := "1300"])
  {
    var e := Entity(Volume, Volume2200Attrs());
    assert e.attrs.values["attached_instance_id"] == "1100";
    assert "1100"[1] != "1300"[1];
    assert "attached_instance_id" in map["attached_instance_id" := "1300"];
  }

  /** On a batch holding only the shortened record of volume 2200, looking
      up by `attached_instance_id` 1100 returns that volume, and looking up by
      1300 returns nothing. */
  lemma AttachedVolumeLookup()
    ensures ParseAwsData("volume", Volume2200Record).Ok?
    ensures var volumes := ParseAwsData("volume", Volume2200Record).value;
      && Lookup(volumes, map["attached_instance_id" := "1100"]) == volumes
      && Lookup(volumes, map["attached_instance_id" := "1300"]) == []
  {
    Volume2200Batch();
    Volume2200Attached();
    LookupSingle(Entity(Volume, Volume2200Attrs()), map["attached_instance_id" := "1100"]);
    LookupSingle(Entity(Volume, Volume2200Attrs()), map["attached_instance_id" := "1300"]);
  }

  /** Two `%`-free fragments joined by `%` split back into the two. */
  lemma SplitTwo(s1: string, s2: string)
    requires '%' !in s1 && '%' !in s2
    ensures Split(s1 + "%" + s2, '%') == [s1, s2]
  {
    JoinTwo(s1, s2, "%");
    SplitJoin([s1, s2], '%');
  }

  /** Two non-blank fragments are both kept. */
  lemma KeptTwo(s1: string, s2: string)
    requires HasContent(s1) && HasContent(s2)
    ensures Kept([s1, s2]) == [s1, s2]
  {
    assert Kept([s2]) == [s2] by {
      assert [s2][1..] == [];
    }
    assert [s1, s2][1..] == [s2];
  }

  /** A batch of two non-blank records parses, for a known kind, to their
      two entities in order. */
  lemma TwoRecordBatch(awsType: string, k: Kind, s1: string, s2: string, d1: Attrs, d2: Attrs)
    requires KindOf(awsType) == Some(k)
    requires '%' !in s1 && '%' !in s2 && HasContent(s1) && HasContent(s2)
    requires ParseRecord(s1) == Ok(d1) && ParseRecord(s2) == Ok(d2)
    ensures ParseAwsData(awsType, s1 + "%" + s2) == Ok([Entity(k, d1), Entity(k, d2)])
  {
    var data := s1 + "%" + s2;
    SplitTwo(s1, s2);
    KeptTwo(s1, s2);
    ParseAwsDataSucceeds(awsType, data);
    var es := ParseAwsData(awsType, data).value;
    ParseAwsDataKnownKind(awsType, data, k);
    assert es == [Entity(k, d1), Entity(k, d2)];
  }

  /** Sample volume 2400, shortened to two fields. */
  function Volume2400(): seq<Pair>
  {
    [("id", "2400"), ("attached_instance_id", "1300")]
  }

  function Volume2400Attrs(): Attrs
  {
    Dict(["id", "attached_instance_id"], map["id" := "2400", "attached_instance_id" := "1300"])
  }

  /** The record of volume 2400, shortened to two fields. */
  const Volume2400Record: string := "id:2400,attached_instance_id:1300"

  lemma Volume2400Text()
    ensures FormatRecord(Volume2400()) == Volume2400Record
  {
    TwoFieldText("id", "2400", "attached_instance_id", "1300");
  }

  lemma Volume2400Dict()
    ensures Plain(Volume2400())
    ensures FromPairs(Volume2400()) == Volume2400Attrs()
  {
  }

  /** The text of volume 2400 has no `%`. */
  lemma Volume2400NoSeparator()
    ensures '%' !in Volume2400Record
  {
  }

  /** The text of volume 2400 is not blank. */
  lemma Volume2400HasContent()
    ensures HasContent(Volume2400Record)
  {
    assert !IsWhitespace(Volume2400Record[0]);
    StripEmptyIffBlank(Volume2400Record);
  }


  /** The record of volume 2400 parses to its two attributes. */
  lemma Volume2400Parse()
    ensures ParseRecord(Volume2400Record) == Ok(Volume2400Attrs())
  {
    Volume2400Text();
    Volume2400Dict();
    ParseRecordFormat(Volume2400());
  }

  /** The two in-use sample volumes, 2200 and 2400, as one batch. */
  const InUseVolumes: string := Volume2200Record + "%" + Volume2400Record

  /** The batch of in-use volumes parses to volumes 2200 and 2400, in order. */
  lemma InUseVolumesBatch()
    ensures ParseAwsData("volume", InUseVolumes) ==
      Ok([Entity(Volume, Volume2200Attrs()), Entity(Volume, Volume2400Attrs())])
  {
    Volume2200Parse();
    Volume2200NoSeparator();
    Volume2200HasContent();
    Volume2400Parse();
    Volume2400NoSeparator();
    Volume2400HasContent();
    TwoRecordBatch("volume", Volume, Volume2200Record, Volume2400Record, Volume2200Attrs(), Volume2400Attrs());
  }

  /** Looking up by `attached_instance_id` among volumes 2200 and 2400. */
  lemma InUseLookup(id: string)
    ensures var v1, v2 := Entity(Volume, Volume2200Attrs()), Entity(Volume, Volume2400Attrs());
      Lookup([v1, v2], map["attached_instance_id" := id]) ==
        (if id == "1100" then [v1] else []) + (if id == "1300" then [v2] else [])
  {
    var v1, v2 := Entity(Volume, Volume2200Attrs()), Entity(Volume, Volume2400Attrs());
    var c := map["attached_instance_id" := id];
    assert [v1, v2] == [v1] + [v2];
    LookupAppend([v1], [v2], c);
    LookupSingle(v1, c);
    LookupSingle(v2, c);
    assert "attached_instance_id" in c;
    assert Matches(v1, c) <==> id == "1100" by {
      assert v1.attrs.values["attached_instance_id"] == "1100";
    }
    assert Matches(v2, c) <==> id == "1300" by {
      assert v2.attrs.values["attached_instance_id"] == "1300";
    }
  }

  /** The volumes attached to each running sample instance, looked up among
      the in-use volumes: instance 1100 has volume 2200 and instance 1400 has
      none; volume 2400 belongs to the stopped instance 1300. */
  lemma RunningInstanceVolumes()
    ensures ParseAwsData("volume", InUseVolumes).Ok?
    ensures var volumes := ParseAwsData("volume", InUseVolumes).value;
      && Lookup(volumes, map["attached_instance_id" := "1100"]) == [Entity(Volume, Volume2200Attrs())]
      && Lookup(volumes, map["attached_instance_id" := "1400"]) == []
      && Lookup(volumes, map["attached_instance_id" := "1300"]) == [Entity(Volume, Volume2400Attrs())]
  {
    InUseVolumesBatch();
    InUseLookup("1100");
    InUseLookup("1400");
    InUseLookup("1300");
  }
}
