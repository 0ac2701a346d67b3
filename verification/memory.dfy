/**
  The summation at the heart of getTotalMemory: on a 200 reply, the sum of
  `limits.memory` over every record of the `data` array; any other code fails
  with that code, and a record without a readable limit fails the whole call
  (the exception leaves the loop, so no partial sum escapes).

  `TotalMemory` sums with unbounded integers. `AccumulateInt32` follows the
  Java loop step by step, with `getAsInt`'s narrowing and the wrap-around of
  the `int` accumulator written out, and is proved to give the unbounded sum
  reduced to 32 bits.
 */
module Memory {
  import opened Outcomes
  import opened Json
  import opened Replies

  const TwoTo31 := 0x8000_0000
  const TwoTo32 := 0x1_0000_0000

  predicate IsInt32(x: int)
  {
    -TwoTo31 <= x < TwoTo31
  }

  /** Narrowing to a Java `int`: the low 32 bits, read as two's complement. */
  function Wrap32(x: int): (r: int)
    ensures IsInt32(r)
    ensures (x - r) % TwoTo32 == 0
    ensures IsInt32(x) ==> r == x
  {
    (x + TwoTo31) % TwoTo32 - TwoTo31
  }

  /** Two integers that agree modulo 2^32 narrow to the same `int`. */
  lemma WrapCongruent(x: int, y: int)
    requires (x - y) % TwoTo32 == 0
    ensures Wrap32(x) == Wrap32(y)
  {
    var k := (x - y) / TwoTo32;
    assert x + TwoTo31 == (y + TwoTo31) + k * TwoTo32;
    ModShift(y + TwoTo31, k);
  }

  lemma ModShift(a: int, k: int)
    ensures (a + k * TwoTo32) % TwoTo32 == a % TwoTo32
  {
    var q := a / TwoTo32;
    var m := a % TwoTo32;
    assert a + k * TwoTo32 == (q + k) * TwoTo32 + m;
  }

  /** Adding two narrowed values and narrowing again is narrowing the true sum. */
  lemma WrapAdd(a: int, b: int)
    ensures Wrap32(a + Wrap32(b)) == Wrap32(a + b)
  {
    var wb := Wrap32(b);
    assert ((a + wb) - (a + b)) % TwoTo32 == 0 by {
      assert (a + wb) - (a + b) == -(b - wb);
    }
    WrapCongruent(a + wb, a + b);
  }

  lemma WrapOfWrapPlus(s: int, m: int)
    ensures Wrap32(Wrap32(s) + m) == Wrap32(s + m)
  {
    var w := Wrap32(s);
    var k := (s - w) / TwoTo32;
    assert (s + m) - (w + m) == k * TwoTo32;
    assert ((w + m) - (s + m)) % TwoTo32 == 0 by {
      assert (w + m) - (s + m) == (-k) * TwoTo32;
      ModShift(0, -k);
    }
    WrapCongruent(w + m, s + m);
  }

  /** `element.getAsJsonObject().getAsJsonObject("attributes").getAsJsonObject("limits").get("memory")`, read as an integer. */
  function RecordMemory(record: Json): (r: Option<int>)
    ensures r.Some? ==> record.JObj? && "attributes" in record.fields
    // the record, `attributes` and `limits` must be objects and `memory` present; its value is read by `getAsInt`
    ensures r == if record.JObj? && "attributes" in record.fields && record.fields["attributes"].JObj?
                    && "limits" in record.fields["attributes"].fields
                    && record.fields["attributes"].fields["limits"].JObj?
                    && "memory" in record.fields["attributes"].fields["limits"].fields
                 then AsInt(record.fields["attributes"].fields["limits"].fields["memory"])
                 else None
  {
    match ObjectMember(record, "attributes")
    case None => None
    case Some(attributes) =>
      match ObjectMember(attributes, "limits")
      case None => None
      case Some(limits) =>
        match Member(limits, "memory")
        case None => None
        case Some(m) => AsInt(m)
  }

  /** The memory limits of all records in order, or `None` as soon as one record has none. */
  function MemoryLimits(records: seq<Json>): (r: Option<seq<int>>)
    ensures r.Some? <==> forall i :: 0 <= i < |records| ==> RecordMemory(records[i]).Some?
    ensures r.Some? ==> |r.value| == |records|
    ensures r.Some? ==> forall i :: 0 <= i < |records| ==> r.value[i] == RecordMemory(records[i]).value
    decreases |records|
  {
    if records == [] then Some([])
    else
      var last := |records| - 1;
      match (MemoryLimits(records[..last]), RecordMemory(records[last]))
      case (Some(init), Some(m)) => Some(init + [m])
      case _ => None
  }

  function Sum(xs: seq<int>): int
    decreases |xs|
  {
    if xs == [] then 0 else Sum(xs[..|xs| - 1]) + xs[|xs| - 1]
  }

  lemma SumSnoc(xs: seq<int>, m: int)
    ensures Sum(xs + [m]) == Sum(xs) + m
  {
    assert (xs + [m])[..|xs|] == xs;
  }

  /** Extending a readable prefix of the records by one readable record. */
  lemma LimitsOfLonger(records: seq<Json>, i: nat)
    requires i < |records|
    requires MemoryLimits(records[..i]).Some? && RecordMemory(records[i]).Some?
    ensures MemoryLimits(records[..i + 1]) == Some(MemoryLimits(records[..i]).value + [RecordMemory(records[i]).value])
  {
    assert records[..i + 1][..i] == records[..i];
  }

  /** One iteration of the Java loop keeps the accumulator equal to the narrowed sum so far. */
  lemma AccumulateStep(records: seq<Json>, i: nat, memorySum: int)
    requires i < |records|
    requires MemoryLimits(records[..i]).Some? && RecordMemory(records[i]).Some?
    requires memorySum == Wrap32(Sum(MemoryLimits(records[..i]).value))
    ensures MemoryLimits(records[..i + 1]).Some?
    ensures Wrap32(memorySum + Wrap32(RecordMemory(records[i]).value))
         == Wrap32(Sum(MemoryLimits(records[..i + 1]).value))
  {
    SumOfLonger(records, i);
    WrapAccumulate(memorySum, Sum(MemoryLimits(records[..i]).value), RecordMemory(records[i]).value,
                   Sum(MemoryLimits(records[..i + 1]).value));
  }

  lemma WrapAccumulate(acc: int, s: int, m: int, s': int)
    requires acc == Wrap32(s) && s' == s + m
    ensures Wrap32(acc + Wrap32(m)) == Wrap32(s')
  {
    WrapAdd(acc, m);
    WrapOfWrapPlus(s, m);
  }

  lemma SumOfLonger(records: seq<Json>, i: nat)
    requires i < |records|
    requires MemoryLimits(records[..i]).Some? && RecordMemory(records[i]).Some?
    ensures MemoryLimits(records[..i + 1]).Some?
    ensures Sum(MemoryLimits(records[..i + 1]).value)
         == Sum(MemoryLimits(records[..i]).value) + RecordMemory(records[i]).value
  {
    LimitsOfLonger(records, i);
    SumSnoc(MemoryLimits(records[..i]).value, RecordMemory(records[i]).value);
  }

  /** The `data` array of a server list body. */
  function Records(root: Json): Option<seq<Json>>
  {
    ArrayMember(root, "data")
  }

  /**
    The total memory limit reported by a server-list reply: on 200 the sum
    of every record's limit, all or nothing; any other code fails with it.
   */
  function TotalMemory(x: Reply): (r: Result<int>)
    ensures r.Ok? <==>
      && x.Response? && x.code == OkStatus && x.body.Parsed?
      && Records(x.body.root).Some?
      && forall i :: 0 <= i < |Records(x.body.root).value| ==> RecordMemory(Records(x.body.root).value[i]).Some?
    ensures r.Ok? ==> r.value == Sum(MemoryLimits(Records(x.body.root).value).value)
    ensures x.Response? && x.code != OkStatus ==> r == Err(UnexpectedStatus(x.code))
    ensures x.Response? && x.code == OkStatus && r.Err? ==> r == Err(Malformed)
    ensures x.TransportError? ==> r == Err(TransportFailed)
  {
    match x
    case TransportError => Err(TransportFailed)
    case Response(code, body) =>
      if code != OkStatus then Err(UnexpectedStatus(code))
      else if body.Unparsable? then Err(Malformed)
      else
        match Records(body.root)
        case None => Err(Malformed)
        case Some(records) =>
          match MemoryLimits(records)
          case None => Err(Malformed)
          case Some(limits) => Ok(Sum(limits))
  }

  /**
    The Java loop over the records: `getAsInt` narrows each limit and
    `memorySum += memory` wraps; the first unreadable record ends the loop
    with a failure.
   */
  method AccumulateInt32(records: seq<Json>) returns (r: Result<int>)
    ensures r.Ok? <==> MemoryLimits(records).Some?
    ensures r.Err? ==> r == Err(Malformed)
    ensures r.Ok? ==> IsInt32(r.value) && r.value == Wrap32(Sum(MemoryLimits(records).value))
  {
    var memorySum := 0;
    var i := 0;
    while i < |records|
      invariant 0 <= i <= |records|
      invariant MemoryLimits(records[..i]).Some?
      invariant memorySum == Wrap32(Sum(MemoryLimits(records[..i]).value))
    {
      var memory := RecordMemory(records[i]);
      if memory.None? {
        return Err(Malformed);
      }
      AccumulateStep(records, i, memorySum);
      memorySum := Wrap32(memorySum + Wrap32(memory.value));
      i := i + 1;
    }
    assert records[..i] == records;
    return Ok(memorySum);
  }

  /** The list body the panel sends for servers with the given memory limits. */
  function ListBody(limits: seq<int>): Json
  {
    JObj(map["data" := JArr(RecordsOf(limits))])
  }

  function RecordsOf(limits: seq<int>): (records: seq<Json>)
    ensures |records| == |limits|
    ensures forall i :: 0 <= i < |limits| ==> records[i] == Record(limits[i])
  {
    seq(|limits|, i requires 0 <= i < |limits| => Record(limits[i]))
  }

  function Record(memory: int): Json
  {
    JObj(map["attributes" := JObj(map["limits" := JObj(map["memory" := JNum(memory)])])])
  }

  /** A 200 list reply is read back as the sum of the limits it carries. */
  lemma TotalMemoryOfListBody(limits: seq<int>)
    ensures TotalMemory(Response(OkStatus, Parsed(ListBody(limits)))) == Ok(Sum(limits))
  {
    var records := RecordsOf(limits);
    assert Records(ListBody(limits)) == Some(records);
    forall i | 0 <= i < |records|
      ensures RecordMemory(records[i]) == Some(limits[i])
    {
      var attributes := JObj(map["limits" := JObj(map["memory" := JNum(limits[i])])]);
      assert ObjectMember(records[i], "attributes") == Some(attributes);
      assert ObjectMember(attributes, "limits") == Some(JObj(map["memory" := JNum(limits[i])]));
    }
    assert MemoryLimits(records).value == limits;
  }

  /** An empty server list totals 0. */
  lemma EmptyListTotalsZero()
    ensures TotalMemory(Response(OkStatus, Parsed(ListBody([])))) == Ok(0)
  {
    TotalMemoryOfListBody([]);
  }

  /** Limits of 512, 1024 and 2048 total 3584. */
  lemma ThreeServersTotal()
    ensures TotalMemory(Response(OkStatus, Parsed(ListBody([512, 1024, 2048])))) == Ok(3584)
  {
    TotalMemoryOfListBody([512, 1024, 2048]);
    assert [512, 1024, 2048][..2] == [512, 1024];
    assert [512, 1024][..1] == [512];
    assert [512][..0] == [];
  }
}
