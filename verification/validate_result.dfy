/** The four result types of cmd/validate/validateResult.go, folded into one
    aggregate parameterised by two settings: detail (long or short items) and
    filter (all numbers, or only the invalid ones). */
module ValidateResult {
  import opened Base

  /** The phone type the validation service uses for a number that is not a real line. */
  const InvalidPhoneType := "INVALID"

  const CliPrefix := "aws pinpoint phone-number-validate --number-validate-request PhoneNumber="

  /** A NumberValidateResponse: the number as sent, its phone type, and the
      remaining fields (carrier, country, time zone, ...) as opaque metadata. */
  datatype Response = Response(originalPhoneNumber: string, phoneType: string, metadata: map<string, string>)

  datatype Detail = Long | Short
  datatype Filter = All | OnlyInvalid

  /** A list item: a long item keeps the whole response, a short one only the number. */
  datatype Item =
    | LongItem(response: Response, awsCliCommand: string)
    | ShortItem(phoneNumber: string, awsCliCommand: string)

  /** One of LongValidateResult, LongValidateResultOnlyInvalid, ShortValidateResult
      or ShortValidateResultOnlyInvalid. The only-invalid forms have no valid bucket;
      here `valid` stays empty for them and is not exposed by `ResultFields`. */
  datatype Aggregate = Aggregate(detail: Detail, filter: Filter, valid: seq<Item>, invalid: seq<Item>)

  /** The number an item refers to. */
  function ItemNumber(it: Item): string {
    match it
    case LongItem(r, _) => r.originalPhoneNumber
    case ShortItem(n, _) => n
  }

  /** Items built for this detail level only, and no valid items without a valid bucket. */
  predicate WellFormed(agg: Aggregate) {
    && (agg.filter == OnlyInvalid ==> agg.valid == [])
    && (forall i :: 0 <= i < |agg.valid| ==> (agg.valid[i].LongItem? <==> agg.detail == Long))
    && (forall i :: 0 <= i < |agg.invalid| ==> (agg.invalid[i].LongItem? <==> agg.detail == Long))
  }

  /** The command line that reproduces the validation call for this response. */
  function AwsCliCommand(r: Response): (cmd: string)
    ensures |cmd| == |CliPrefix| + |r.originalPhoneNumber|
    ensures cmd[..|CliPrefix|] == CliPrefix
    ensures cmd[|CliPrefix|..] == r.originalPhoneNumber
  {
    CliPrefix + r.originalPhoneNumber
  }

  /** Reads the phone number back out of a command line. */
  function CliCommandNumber(cmd: string): (n: Option<string>)
    ensures n.Some? <==> |cmd| >= |CliPrefix| && cmd[..|CliPrefix|] == CliPrefix
    ensures n.Some? ==> CliPrefix + n.value == cmd
  {
    if |cmd| >= |CliPrefix| && cmd[..|CliPrefix|] == CliPrefix then Some(cmd[|CliPrefix|..]) else None
  }

  /** The command line names exactly the response's number. */
  lemma CliCommandRoundTrip(r: Response)
    ensures CliCommandNumber(AwsCliCommand(r)) == Some(r.originalPhoneNumber)
  {
  }

  /** Two responses share a command line iff they share a number. */
  lemma CliCommandInjective(r1: Response, r2: Response)
    ensures AwsCliCommand(r1) == AwsCliCommand(r2) <==> r1.originalPhoneNumber == r2.originalPhoneNumber
  {
    if AwsCliCommand(r1) == AwsCliCommand(r2) {
      CliCommandRoundTrip(r1);
      CliCommandRoundTrip(r2);
    }
  }

  /** The classification every Add uses: an exact, case-sensitive comparison. */
  predicate IsInvalid(r: Response) {
    r.phoneType == InvalidPhoneType
  }

  /** The item the long forms append: the whole response and its command line. */
  function LongItemFor(r: Response): (it: Item)
    ensures it.LongItem? && it.response == r
    ensures CliCommandNumber(it.awsCliCommand) == Some(r.originalPhoneNumber)
  {
    CliCommandRoundTrip(r);
    LongItem(r, AwsCliCommand(r))
  }

  /** The item the short forms append: only the number and its command line. */
  function ShortItemFor(r: Response): (it: Item)
    ensures it.ShortItem? && it.phoneNumber == r.originalPhoneNumber
    ensures CliCommandNumber(it.awsCliCommand) == Some(r.originalPhoneNumber)
  {
    CliCommandRoundTrip(r);
    ShortItem(r.originalPhoneNumber, AwsCliCommand(r))
  }

  /** The list item Add appends for this detail level. */
  function MakeItem(detail: Detail, r: Response): (it: Item)
    ensures it.LongItem? <==> detail == Long
    ensures ItemNumber(it) == r.originalPhoneNumber
    ensures it.awsCliCommand == AwsCliCommand(r)
  {
    match detail
    case Long => LongItemFor(r)
    case Short => ShortItemFor(r)
  }

  /** A fresh aggregate: both buckets empty. */
  function New(detail: Detail, filter: Filter): (agg: Aggregate)
    ensures agg.detail == detail && agg.filter == filter
    ensures agg.valid == [] && agg.invalid == []
    ensures WellFormed(agg)
  {
    Aggregate(detail, filter, [], [])
  }

  function FilterFor(onlyInvalid: bool): (f: Filter)
    ensures f == OnlyInvalid <==> onlyInvalid
  {
    if onlyInvalid then OnlyInvalid else All
  }

  /** NewShortValidateResult: short items, empty buckets, no valid bucket when only invalid numbers are wanted. */
  function NewShortValidateResult(onlyInvalid: bool): (agg: Aggregate)
    ensures agg.detail == Short
    ensures agg.filter == OnlyInvalid <==> onlyInvalid
    ensures agg.valid == [] && agg.invalid == []
    ensures "Valid" in ResultFields(agg) <==> !onlyInvalid
  {
    New(Short, FilterFor(onlyInvalid))
  }

  /** NewLongValidateResult: long items, empty buckets, no valid bucket when only invalid numbers are wanted. */
  function NewLongValidateResult(onlyInvalid: bool): (agg: Aggregate)
    ensures agg.detail == Long
    ensures agg.filter == OnlyInvalid <==> onlyInvalid
    ensures agg.valid == [] && agg.invalid == []
    ensures "Valid" in ResultFields(agg) <==> !onlyInvalid
  {
    New(Long, FilterFor(onlyInvalid))
  }

  /** Add of all four result types. An invalid response always goes to the
      invalid bucket; a valid one goes to the valid bucket, or is dropped when
      there is none. The settings never change. */
  function Add(agg: Aggregate, r: Response): (agg': Aggregate)
    ensures agg'.detail == agg.detail && agg'.filter == agg.filter
    ensures IsInvalid(r) ==> agg'.invalid == agg.invalid + [MakeItem(agg.detail, r)] && agg'.valid == agg.valid
    ensures !IsInvalid(r) && agg.filter == All ==>
      agg'.valid == agg.valid + [MakeItem(agg.detail, r)] && agg'.invalid == agg.invalid
    ensures !IsInvalid(r) && agg.filter == OnlyInvalid ==> agg' == agg
    ensures WellFormed(agg) ==> WellFormed(agg')
  {
    if IsInvalid(r) then
      agg.(invalid := agg.invalid + [MakeItem(agg.detail, r)])
    else if agg.filter == All then
      agg.(valid := agg.valid + [MakeItem(agg.detail, r)])
    else
      agg
  }

  /** Add applied to each response in turn. */
  function AddAll(agg: Aggregate, rs: seq<Response>): Aggregate
    decreases |rs|
  {
    if |rs| == 0 then agg else AddAll(Add(agg, rs[0]), rs[1..])
  }

  /** The responses of one class, in the order they were added. */
  function Select(rs: seq<Response>, invalid: bool): seq<Response>
    decreases |rs|
  {
    if |rs| == 0 then []
    else (if IsInvalid(rs[0]) == invalid then [rs[0]] else []) + Select(rs[1..], invalid)
  }

  /** The items Add builds for these responses, one each, in order. */
  function Items(detail: Detail, rs: seq<Response>): (items: seq<Item>)
    ensures |items| == |rs|
    decreases |rs|
  {
    if |rs| == 0 then [] else [MakeItem(detail, rs[0])] + Items(detail, rs[1..])
  }

  /** The i-th item is built from the i-th response. */
  lemma {:induction false} ItemsIndex(detail: Detail, rs: seq<Response>, i: nat)
    requires i < |rs|
    ensures Items(detail, rs)[i] == MakeItem(detail, rs[i])
    decreases |rs|
  {
    if i > 0 {
      ItemsIndex(detail, rs[1..], i - 1);
    }
  }

  /** A response is selected iff it was added and has the requested class. */
  lemma {:induction false} SelectMembers(rs: seq<Response>, invalid: bool)
    ensures forall r :: r in Select(rs, invalid) <==> r in rs && IsInvalid(r) == invalid
    decreases |rs|
  {
    if |rs| > 0 {
      SelectMembers(rs[1..], invalid);
      assert rs == [rs[0]] + rs[1..];
    }
  }

  lemma {:induction false} SelectPartition(rs: seq<Response>)
    ensures |Select(rs, true)| + |Select(rs, false)| == |rs|
    decreases |rs|
  {
    if |rs| > 0 {
      SelectPartition(rs[1..]);
    }
  }

  lemma {:induction false} AddAllSettings(agg: Aggregate, rs: seq<Response>)
    ensures AddAll(agg, rs).detail == agg.detail && AddAll(agg, rs).filter == agg.filter
    decreases |rs|
  {
    if |rs| > 0 {
      AddAllSettings(Add(agg, rs[0]), rs[1..]);
    }
  }

  lemma {:induction false} AddAllInvalid(agg: Aggregate, rs: seq<Response>)
    ensures AddAll(agg, rs).invalid == agg.invalid + Items(agg.detail, Select(rs, true))
    decreases |rs|
  {
    if |rs| == 0 {
      assert Items(agg.detail, []) == [];
    } else {
      var r, rest := rs[0], rs[1..];
      var d := agg.detail;
      AddAllInvalid(Add(agg, r), rest);
      if IsInvalid(r) {
        var m := MakeItem(d, r);
        assert Select(rs, true) == [r] + Select(rest, true);
        assert ([r] + Select(rest, true))[1..] == Select(rest, true);
        assert agg.invalid + [m] + Items(d, Select(rest, true))
          == agg.invalid + ([m] + Items(d, Select(rest, true)));
      } else {
        assert Select(rs, true) == Select(rest, true);
      }
    }
  }

  lemma {:induction false} AddAllValid(agg: Aggregate, rs: seq<Response>)
    ensures agg.filter == All ==> AddAll(agg, rs).valid == agg.valid + Items(agg.detail, Select(rs, false))
    ensures agg.filter == OnlyInvalid ==> AddAll(agg, rs).valid == agg.valid
    decreases |rs|
  {
    if |rs| == 0 {
      assert Items(agg.detail, []) == [];
    } else {
      var r, rest := rs[0], rs[1..];
      var d := agg.detail;
      AddAllValid(Add(agg, r), rest);
      if !IsInvalid(r) {
        var m := MakeItem(d, r);
        assert Select(rs, false) == [r] + Select(rest, false);
        assert ([r] + Select(rest, false))[1..] == Select(rest, false);
        assert agg.valid + [m] + Items(d, Select(rest, false))
          == agg.valid + ([m] + Items(d, Select(rest, false)));
      } else {
        assert Select(rs, false) == Select(rest, false);
      }
    }
  }

  /** After any sequence of Adds, each bucket is the in-order filter of the
      added responses for its class, turned into items; the only-invalid forms
      keep no valid item. */
  lemma AddAllBuckets(agg: Aggregate, rs: seq<Response>)
    ensures AddAll(agg, rs).detail == agg.detail && AddAll(agg, rs).filter == agg.filter
    ensures AddAll(agg, rs).invalid == agg.invalid + Items(agg.detail, Select(rs, true))
    ensures agg.filter == All ==> AddAll(agg, rs).valid == agg.valid + Items(agg.detail, Select(rs, false))
    ensures agg.filter == OnlyInvalid ==> AddAll(agg, rs).valid == agg.valid
  {
    AddAllSettings(agg, rs);
    AddAllInvalid(agg, rs);
    AddAllValid(agg, rs);
  }

  /** Starting from a fresh aggregate: the buckets are exactly the classified
      responses; with both buckets every response lands in exactly one. */
  lemma AddAllFromNew(detail: Detail, filter: Filter, rs: seq<Response>)
    ensures AddAll(New(detail, filter), rs).invalid == Items(detail, Select(rs, true))
    ensures filter == All ==> AddAll(New(detail, filter), rs).valid == Items(detail, Select(rs, false))
    ensures filter == All ==>
      |AddAll(New(detail, filter), rs).valid| + |AddAll(New(detail, filter), rs).invalid| == |rs|
    ensures filter == OnlyInvalid ==> AddAll(New(detail, filter), rs).valid == []
  {
    AddAllBuckets(New(detail, filter), rs);
    SelectPartition(rs);
  }

  /** Position by position: the i-th invalid item is built from the i-th
      INVALID response added, and likewise for valid items when there is a
      valid bucket. */
  lemma BucketsIndexwise(detail: Detail, filter: Filter, rs: seq<Response>)
    ensures var inv := AddAll(New(detail, filter), rs).invalid;
      |inv| == |Select(rs, true)| && forall i :: 0 <= i < |inv| ==> inv[i] == MakeItem(detail, Select(rs, true)[i])
    ensures var val := AddAll(New(detail, filter), rs).valid;
      filter == All ==>
        (|val| == |Select(rs, false)| && forall i :: 0 <= i < |val| ==> val[i] == MakeItem(detail, Select(rs, false)[i]))
  {
    AddAllFromNew(detail, filter, rs);
    var inv, val := AddAll(New(detail, filter), rs).invalid, AddAll(New(detail, filter), rs).valid;
    forall i | 0 <= i < |inv| ensures inv[i] == MakeItem(detail, Select(rs, true)[i]) {
      ItemsIndex(detail, Select(rs, true), i);
    }
    if filter == All {
      forall i | 0 <= i < |val| ensures val[i] == MakeItem(detail, Select(rs, false)[i]) {
        ItemsIndex(detail, Select(rs, false), i);
      }
    }
  }

  /** Well-formedness is kept by every sequence of Adds. */
  lemma {:induction false} AddAllWellFormed(agg: Aggregate, rs: seq<Response>)
    requires WellFormed(agg)
    ensures WellFormed(AddAll(agg, rs))
    decreases |rs|
  {
    if |rs| > 0 {
      AddAllWellFormed(Add(agg, rs[0]), rs[1..]);
    }
  }

  /** The fields the rendered result exposes: "Invalid" always, "Valid" only
      for the forms that keep a valid bucket. This stands for the JSON object
      Result() prints, without its text. */
  function ResultFields(agg: Aggregate): (fields: map<string, seq<Item>>)
    ensures "Invalid" in fields && fields["Invalid"] == agg.invalid
    ensures "Valid" in fields <==> agg.filter == All
    ensures "Valid" in fields ==> fields["Valid"] == agg.valid
    ensures fields.Keys <= {"Valid", "Invalid"}
  {
    match agg.filter
    case All => map["Valid" := agg.valid, "Invalid" := agg.invalid]
    case OnlyInvalid => map["Invalid" := agg.invalid]
  }

  /** A MOBILE number with long items and all numbers: one valid long item, no invalid one. */
  lemma ExampleLongAll(r: Response)
    requires r.originalPhoneNumber == "+15551234567" && r.phoneType == "MOBILE"
    ensures ResultFields(AddAll(New(Long, All), [r]))
      == map["Valid" := [LongItem(r, CliPrefix + "+15551234567")], "Invalid" := []]
  {
    var a := Add(New(Long, All), r);
    assert !IsInvalid(r);
    assert AddAll(New(Long, All), [r]) == a;
    assert a.valid == [MakeItem(Long, r)] && a.invalid == [];
    assert MakeItem(Long, r) == LongItem(r, CliPrefix + "+15551234567");
    assert ResultFields(a) == map["Valid" := a.valid, "Invalid" := a.invalid];
  }

  /** An INVALID number with short items and only invalid numbers: one short
      invalid item and no valid field. */
  lemma ExampleShortOnlyInvalid(r: Response)
    requires r.originalPhoneNumber == "+15551234567" && r.phoneType == "INVALID"
    ensures ResultFields(AddAll(New(Short, OnlyInvalid), [r]))
      == map["Invalid" := [ShortItem("+15551234567", CliPrefix + "+15551234567")]]
  {
    var a := Add(New(Short, OnlyInvalid), r);
    assert AddAll(New(Short, OnlyInvalid), [r]) == a;
    assert a.invalid == [MakeItem(Short, r)];
    assert MakeItem(Short, r) == ShortItem("+15551234567", CliPrefix + "+15551234567");
    assert ResultFields(a) == map["Invalid" := a.invalid];
  }
}
