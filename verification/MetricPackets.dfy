/**
 The metric packet parser. A packet `name:value|type|@rate|#tag,tag:value|type...` is
 split at every colon, although tags may hold colons too, so the pieces of one
 datum have to be put together again.
 */
module MetricPackets {
  import opened Prelude
  import opened Sorting
  import opened Text

  /** `int` and `float` on text; `None` is a ValueError. */
  datatype Numbers = Numbers(toInt: string -> Option<int>, toFloat: string -> Option<real>)

  datatype Value = Raw(text: string) | Whole(n: int) | Floating(x: real)

  datatype Parsed = Parsed(name: string, value: Value, mtype: string, tags: Option<seq<string>>, rate: real)

  datatype PacketError = Unparseable | NotANumber | ValueError

  // ---------- regrouping ----------

  /** The data after a number of tokens, the one under construction last. */
  function Regrouped(tokens: seq<string>): (data: seq<string>)
    requires tokens != []
    ensures data != []
    decreases |tokens|
  {
    if |tokens| == 1 then tokens
    else
      var n := |tokens| - 1;
      var data := Regrouped(tokens[..n]);
      if '|' in tokens[n] then data + [tokens[n]]
      else data[..|data| - 1] + [data[|data| - 1] + ":" + tokens[n]]
  }

  method Regroup(tokens: seq<string>) returns (data: seq<string>)
    requires tokens != []
    ensures data == Regrouped(tokens)
  {
    data := [];
    var partial := tokens[0];
    for i := 1 to |tokens|
      invariant data + [partial] == Regrouped(tokens[..i])
    {
      var token := tokens[i];
      assert tokens[..i + 1][..i] == tokens[..i];
      if '|' !in token {
        partial := partial + ":" + token;
      } else {
        data := data + [partial];
        partial := token;
      }
    }
    data := data + [partial];
    assert tokens[..|tokens|] == tokens;
  }

  /** A datum in one piece: no bar after its first colon. */
  ghost predicate OnePiece(datum: string) {
    NoneHas(Split(datum, ':')[1..], '|')
  }

  /** Data whose limits can be recognised: all in one piece, and a bar before the
      first colon of every datum but the first. */
  ghost predicate Grouped(data: seq<string>) {
    forall i :: 0 <= i < |data| ==> OnePiece(data[i]) && (i > 0 ==> '|' in Split(data[i], ':')[0])
  }

  lemma {:induction false} RegroupedIsGrouped(tokens: seq<string>)
    requires tokens != [] && NoneHas(tokens, ':')
    ensures Grouped(Regrouped(tokens))
    ensures Join(Regrouped(tokens), ':') == Join(tokens, ':')
    decreases |tokens|
  {
    if |tokens| == 1 {
      SplitWhole(tokens[0], ':');
    } else {
      var n := |tokens| - 1;
      var before, token := Regrouped(tokens[..n]), tokens[n];
      RegroupedIsGrouped(tokens[..n]);
      JoinAppend(tokens[..n], [token], ':');
      assert tokens[..n] + [token] == tokens;
      hide Grouped;
      if '|' in token {
        NextDatum(before, token);
      } else {
        LongerDatum(before, token);
      }
    }
  }

  lemma NextDatum(before: seq<string>, token: string)
    requires before != [] && Grouped(before) && ':' !in token && '|' in token
    ensures Grouped(before + [token])
    ensures Join(before + [token], ':') == Join(before, ':') + ":" + token
  {
    SplitWhole(token, ':');
    JoinAppend(before, [token], ':');
    assert OnePiece(token);
  }

  lemma LongerDatum(before: seq<string>, token: string)
    requires before != [] && Grouped(before) && ':' !in token && '|' !in token
    ensures var k := |before| - 1;
      var longer := before[..k] + [before[k] + ":" + token];
      Grouped(longer) && Join(longer, ':') == Join(before, ':') + ":" + token
  {
    var k := |before| - 1;
    SplitWhole(token, ':');
    SplitAppend(before[k], token, ':');
    JoinLonger(before[..k], before[k], token);
    assert before[..k] + [before[k]] == before;
    var pieces := Split(before[k], ':');
    assert (pieces + [token])[1..] == pieces[1..] + [token];
    assert OnePiece(before[k]);
    assert OnePiece(before[k] + ":" + token);
  }

  lemma JoinLonger(before: seq<string>, last: string, token: string)
    ensures Join(before + [last + ":" + token], ':') == Join(before + [last], ':') + ":" + token
  {
    if before == [] {
      assert before + [last + ":" + token] == [last + ":" + token] && before + [last] == [last];
    } else {
      JoinAppend(before, [last + ":" + token], ':');
      JoinAppend(before, [last], ':');
    }
  }

  lemma RegroupSnoc(tokens: seq<string>, token: string)
    requires tokens != []
    ensures var data := Regrouped(tokens); var k := |data| - 1;
      Regrouped(tokens + [token]) == if '|' in token then data + [token] else data[..k] + [data[k] + ":" + token]
  {
    assert (tokens + [token])[..|tokens|] == tokens;
  }

  /** The tokens of one more datum. */
  lemma {:induction false} RegroupsOneMore(prior: seq<string>, tokens: seq<string>)
    requires tokens != [] && NoneHas(tokens[1..], '|')
    requires prior != [] ==> '|' in tokens[0]
    ensures Regrouped(prior + tokens) == (if prior == [] then [] else Regrouped(prior)) + [Join(tokens, ':')]
    decreases |tokens|
  {
    hide Regrouped, Join;
    var n := |tokens| - 1;
    var last := tokens[n];
    JoinOne(last, ':');
    assert tokens[..n] + [last] == tokens;
    if n > 0 {
      assert tokens[1..][n - 1] == last;
      assert NoneHas(tokens[..n][1..], '|') by { assert forall i :: 0 <= i < n - 1 ==> tokens[..n][1..][i] == tokens[1..][i]; }
      RegroupsOneMore(prior, tokens[..n]);
      JoinAppend(tokens[..n], [last], ':');
      assert prior + tokens == (prior + tokens[..n]) + [last];
      RegroupSnoc(prior + tokens[..n], last);
    } else if prior != [] {
      RegroupSnoc(prior, last);
      assert prior + tokens == prior + [last];
    } else {
      RegroupedOne(last);
      assert prior + tokens == [last];
    }
  }

  lemma RegroupedOne(token: string)
    ensures Regrouped([token]) == [token]
  {
  }

  lemma JoinOne(s: string, sep: char)
    ensures Join([s], sep) == s
  {
  }

  lemma {:induction false} GroupedDataRegroup(data: seq<string>)
    requires data != [] && Grouped(data)
    ensures Regrouped(Split(Join(data, ':'), ':')) == data
    decreases |data|
  {
    var n := |data| - 1;
    var tokens := Split(data[n], ':');
    JoinSplit(data[n], ':');
    if n == 0 {
      RegroupsOneMore([], tokens);
      assert [] + tokens == tokens;
    } else {
      GroupedDataRegroup(data[..n]);
      JoinAppend(data[..n], [data[n]], ':');
      assert data[..n] + [data[n]] == data;
      SplitAppend(Join(data[..n], ':'), data[n], ':');
      RegroupsOneMore(Split(Join(data[..n], ':'), ':'), tokens);
    }
  }

  /** Regrouping finds the one way to cut a text at colons into recognisable data. */
  lemma RegroupIff(text: string, data: seq<string>)
    ensures data == Regrouped(Split(text, ':')) <==> data != [] && Grouped(data) && Join(data, ':') == text
  {
    SplitLacks(text, ':');
    JoinSplit(text, ':');
    RegroupedIsGrouped(Split(text, ':'));
    if data != [] && Grouped(data) {
      GroupedDataRegroup(data);
    }
  }

  // ---------- one datum ----------

  function ParseValue(nums: Numbers, raw: string, mtype: string): Result<Value, PacketError> {
    if mtype == "s" then Ok(Raw(raw))
    else
      match nums.toInt(raw)
      case Some(n) => Ok(Whole(n))
      case None =>
        match nums.toFloat(raw)
        case Some(x) => Ok(Floating(x))
        case None => Err(NotANumber)
  }

  /** What value a text stands for: itself for a set, else an integer if it reads as one,
      else a number if it reads as one. */
  ghost predicate Denotes(nums: Numbers, raw: string, mtype: string, value: Value) {
    match value
    case Raw(text) => mtype == "s" && text == raw
    case Whole(n) => mtype != "s" && nums.toInt(raw) == Some(n)
    case Floating(x) => mtype != "s" && nums.toInt(raw) == None && nums.toFloat(raw) == Some(x)
  }

  /** The text of a type other than a set reads as no number at all. */
  predicate NoNumber(nums: Numbers, raw: string, mtype: string) {
    mtype != "s" && nums.toInt(raw) == None && nums.toFloat(raw) == None
  }

  lemma ParseValueMeaning(nums: Numbers, raw: string, mtype: string)
    ensures ParseValue(nums, raw, mtype).Ok? ==> Denotes(nums, raw, mtype, ParseValue(nums, raw, mtype).value)
    ensures ParseValue(nums, raw, mtype).Err? ==> NoNumber(nums, raw, mtype) && ParseValue(nums, raw, mtype).error == NotANumber
  {
  }

  /** A text stands for one value at most. */
  lemma DenotesOne(nums: Numbers, raw: string, mtype: string, a: Value, b: Value)
    requires Denotes(nums, raw, mtype, a) && Denotes(nums, raw, mtype, b)
    ensures a == b && !NoNumber(nums, raw, mtype)
  {
  }

  /** The loop over the optional fields. An empty field or a rate out of range ends it
      with a warning and the default rate; tags read before stay. */
  function ReadOptions(nums: Numbers, fields: seq<string>, rate: real, tags: Option<seq<string>>):
    Result<(real, Option<seq<string>>), PacketError>
    decreases |fields|
  {
    if fields == [] then Ok((rate, tags))
    else if fields[0] == "" then Ok((1.0, tags))
    else if fields[0][0] == '@' then
      match nums.toFloat(fields[0][1..])
      case None => Err(ValueError)
      case Some(r) => if 0.0 <= r <= 1.0 then ReadOptions(nums, fields[1..], r, tags) else Ok((1.0, tags))
    else if fields[0][0] == '#' then
      ReadOptions(nums, fields[1..], rate, Some(SortedTags(Split(fields[0][1..], ','))))
    else ReadOptions(nums, fields[1..], rate, tags)
  }

  method ParseOptions(nums: Numbers, fields: seq<string>) returns (r: Result<(real, Option<seq<string>>), PacketError>)
    ensures r == ReadOptions(nums, fields, 1.0, None)
  {
    var rate, tags := 1.0, None;
    for i := 0 to |fields|
      invariant ReadOptions(nums, fields[i..], rate, tags) == ReadOptions(nums, fields, 1.0, None)
    {
      var m := fields[i];
      assert fields[i..][0] == m && fields[i..][1..] == fields[i + 1..];
      if m == "" {
        return Ok((1.0, tags));
      }
      if m[0] == '@' {
        var x := nums.toFloat(m[1..]);
        if x.None? {
          return Err(ValueError);
        }
        rate := x.value;
        if !(0.0 <= rate <= 1.0) {
          return Ok((1.0, tags));
        }
      } else if m[0] == '#' {
        tags := Some(SortedTags(Split(m[1..], ',')));
      }
    }
    r := Ok((rate, tags));
  }

  function ParseDatum(nums: Numbers, name: string, datum: string): Result<Parsed, PacketError> {
    var fields := Split(datum, '|');
    if |fields| < 2 then Err(Unparseable)
    else
      match ParseValue(nums, fields[0], fields[1])
      case Err(e) => Err(e)
      case Ok(value) =>
        match ReadOptions(nums, fields[2..], 1.0, None)
        case Err(e) => Err(e)
        case Ok(o) => Ok(Parsed(name, value, fields[1], o.1, o.0))
  }

  // ---------- the packet ----------

  /** All results, or the first error. */
  function AllOrError(results: seq<Result<Parsed, PacketError>>): Result<seq<Parsed>, PacketError>
    decreases |results|
  {
    if results == [] then Ok([])
    else
      var n := |results| - 1;
      match AllOrError(results[..n])
      case Err(e) => Err(e)
      case Ok(before) =>
        match results[n]
        case Err(e) => Err(e)
        case Ok(p) => Ok(before + [p])
  }

  function ParseData(nums: Numbers, name: string, data: seq<string>): seq<Result<Parsed, PacketError>> {
    seq(|data|, i requires 0 <= i < |data| => ParseDatum(nums, name, data[i]))
  }

  function Parse(nums: Numbers, packet: string): Result<seq<Parsed>, PacketError> {
    match Cut(packet, ':')
    case None => Err(Unparseable)
    case Some(p) => AllOrError(ParseData(nums, p.0, Regrouped(Split(p.1, ':'))))
  }

  method ParseMetricPacket(nums: Numbers, packet: string) returns (r: Result<seq<Parsed>, PacketError>)
    ensures r == Parse(nums, packet)
  {
    var cut := Cut(packet, ':');
    if cut.None? {
      return Err(Unparseable);
    }
    var name := cut.value.0;
    var data := Regroup(Split(cut.value.1, ':'));
    var parsed := [];
    ghost var results := ParseData(nums, name, data);
    for i := 0 to |data|
      invariant AllOrError(results[..i]) == Ok(parsed)
    {
      assert results[..i + 1][..i] == results[..i];
      var datum := ParseOneDatum(nums, name, data[i]);
      if datum.Err? {
        FirstErrorWins(results, i, datum.error);
        return Err(datum.error);
      }
      parsed := parsed + [datum.value];
    }
    assert results[..|data|] == results;
    r := Ok(parsed);
  }

  method ParseOneDatum(nums: Numbers, name: string, datum: string) returns (r: Result<Parsed, PacketError>)
    ensures r == ParseDatum(nums, name, datum)
  {
    var fields := Split(datum, '|');
    if |fields| < 2 {
      return Err(Unparseable);
    }
    var value := ParseValue(nums, fields[0], fields[1]);
    if value.Err? {
      return Err(value.error);
    }
    var options := ParseOptions(nums, fields[2..]);
    if options.Err? {
      return Err(options.error);
    }
    r := Ok(Parsed(name, value.value, fields[1], options.value.1, options.value.0));
  }

  lemma {:induction false} FirstErrorWins(results: seq<Result<Parsed, PacketError>>, i: nat, e: PacketError)
    requires i < |results| && results[i] == Err(e) && AllOrError(results[..i]).Ok?
    ensures AllOrError(results) == Err(e)
    decreases |results|
  {
    var n := |results| - 1;
    if i < n {
      assert results[..n][..i] == results[..i];
      FirstErrorWins(results[..n], i, e);
    }
  }

  // ---------- printing ----------

  /** A metric as a client writes it: the rate and the value are still text. */
  datatype Metric = Metric(raw: string, mtype: string, rate: Option<string>, tags: Option<seq<string>>)

  function RateField(m: Metric): seq<string> {
    if m.rate.Some? then ["@" + m.rate.value] else []
  }

  function TagField(m: Metric): seq<string> {
    if m.tags.Some? then ["#" + Join(m.tags.value, ',')] else []
  }

  function PrintMetric(m: Metric): string {
    Join([m.raw, m.mtype] + RateField(m) + TagField(m), '|')
  }

  function PrintAll(ms: seq<Metric>): seq<string> {
    seq(|ms|, i requires 0 <= i < |ms| => PrintMetric(ms[i]))
  }

  function PrintPacket(name: string, ms: seq<Metric>): string {
    name + ":" + Join(PrintAll(ms), ':')
  }

  predicate Bare(s: string) {
    ':' !in s && '|' !in s
  }

  /** Only tags may hold colons. */
  ghost predicate WellFormed(m: Metric) {
    && Bare(m.raw) && Bare(m.mtype) && (m.rate.Some? ==> Bare(m.rate.value))
    && (m.tags.Some? ==> m.tags.value != [] && NoneHas(m.tags.value, '|') && NoneHas(m.tags.value, ','))
  }

  /** What a printed metric says. The text of a set is kept; any other is an integer, else
      a number, else refused. A rate out of range also loses the tags behind it. */
  function Meaning(nums: Numbers, name: string, m: Metric): Result<Parsed, PacketError> {
    if m.mtype == "s" then WithOptions(nums, name, m, Raw(m.raw))
    else if nums.toInt(m.raw).Some? then WithOptions(nums, name, m, Whole(nums.toInt(m.raw).value))
    else if nums.toFloat(m.raw).Some? then WithOptions(nums, name, m, Floating(nums.toFloat(m.raw).value))
    else Err(NotANumber)
  }

  function WithOptions(nums: Numbers, name: string, m: Metric, value: Value): Result<Parsed, PacketError> {
    var tags := if m.tags.Some? then Some(SortedTags(m.tags.value)) else None;
    if m.rate.None? then Ok(Parsed(name, value, m.mtype, tags, 1.0))
    else
      match nums.toFloat(m.rate.value)
      case None => Err(ValueError)
      case Some(r) =>
        if 0.0 <= r <= 1.0 then Ok(Parsed(name, value, m.mtype, tags, r))
        else Ok(Parsed(name, value, m.mtype, None, 1.0))
  }

  lemma FieldsOf(m: Metric)
    requires WellFormed(m)
    ensures Split(PrintMetric(m), '|') == [m.raw, m.mtype] + RateField(m) + TagField(m)
  {
    if m.tags.Some? {
      JoinLacks(m.tags.value, ',', '|');
    }
    SplitJoin([m.raw, m.mtype] + RateField(m) + TagField(m), '|');
  }

  lemma PrintedMetricParses(nums: Numbers, name: string, m: Metric)
    requires WellFormed(m)
    ensures ParseDatum(nums, name, PrintMetric(m)) == Meaning(nums, name, m)
  {
    FieldsOf(m);
    var options := RateField(m) + TagField(m);
    assert Split(PrintMetric(m), '|')[2..] == options;
    TagsRead(nums, m, 1.0);
    if m.rate.Some? {
      assert RateField(m)[0][1..] == m.rate.value && options[1..] == TagField(m);
      if nums.toFloat(m.rate.value).Some? {
        TagsRead(nums, m, nums.toFloat(m.rate.value).value);
      }
    } else {
      assert options == TagField(m);
    }
    hide PrintMetric, TagField, Split, Join, SortedTags, WellFormed;
  }

  lemma TagsRead(nums: Numbers, m: Metric, rate: real)
    requires WellFormed(m)
    ensures ReadOptions(nums, TagField(m), rate, None)
         == Ok((rate, if m.tags.Some? then Some(SortedTags(m.tags.value)) else None))
  {
    if m.tags.Some? {
      SplitJoin(m.tags.value, ',');
      assert TagField(m)[0][1..] == Join(m.tags.value, ',') && TagField(m)[1..] == [];
    }
  }

  /** A printed metric is in one piece and shows where it starts. */
  lemma PrintedMetricIsGrouped(m: Metric)
    requires WellFormed(m)
    ensures OnePiece(PrintMetric(m)) && '|' in Split(PrintMetric(m), ':')[0]
  {
    var head := Join([m.raw, m.mtype] + RateField(m), '|');
    JoinLacks([m.raw, m.mtype] + RateField(m), '|', ':');
    assert '|' in head by {
      assert head[|m.raw|] == '|';
    }
    if m.tags.Some? {
      var tail := Join(m.tags.value, ',');
      JoinLacks(m.tags.value, ',', '|');
      JoinAppend([m.raw, m.mtype] + RateField(m), TagField(m), '|');
      assert PrintMetric(m) == (head + "|#") + tail;
      SplitPrefix(head + "|#", tail, ':');
      SplitKeepsOut(tail, ':', '|');
    } else {
      assert [m.raw, m.mtype] + RateField(m) + TagField(m) == [m.raw, m.mtype] + RateField(m);
      SplitWhole(head, ':');
    }
  }

  /** Printed packets parse to what their metrics say, errors included. */
  lemma PrintedPacketParses(nums: Numbers, name: string, ms: seq<Metric>)
    requires ':' !in name && ms != []
    requires forall i :: 0 <= i < |ms| ==> WellFormed(ms[i])
    ensures Parse(nums, PrintPacket(name, ms))
         == AllOrError(seq(|ms|, i requires 0 <= i < |ms| => Meaning(nums, name, ms[i])))
  {
    var data := PrintAll(ms);
    forall i | 0 <= i < |ms|
      ensures OnePiece(data[i]) && '|' in Split(data[i], ':')[0]
      ensures ParseDatum(nums, name, data[i]) == Meaning(nums, name, ms[i])
    {
      PrintedMetricIsGrouped(ms[i]);
      PrintedMetricParses(nums, name, ms[i]);
    }
    hide ParseDatum, Meaning, PrintMetric, WellFormed, Join, Split, OnePiece, Cut;
    GroupedDataRegroup(data);
    CutAtSep(name, Join(data, ':'), ':');
    assert ParseData(nums, name, data) == seq(|ms|, i requires 0 <= i < |ms| => Meaning(nums, name, ms[i]));
  }

  /** The parsed form of a metric whose texts are numbers in range. */
  ghost predicate Says(nums: Numbers, name: string, m: Metric, p: Parsed) {
    && p.name == name && p.mtype == m.mtype && Denotes(nums, m.raw, m.mtype, p.value)
    && (if m.tags.None? then p.tags == None
        else p.tags.Some? && Sorted(p.tags.value, TextLe) && multiset(p.tags.value) == multiset(m.tags.value))
    && (if m.rate.None? then p.rate == 1.0 else nums.toFloat(m.rate.value) == Some(p.rate) && 0.0 <= p.rate <= 1.0)
  }

  lemma {:induction false} AllSucceed(ps: seq<Parsed>, results: seq<Result<Parsed, PacketError>>)
    requires |ps| == |results| && forall i :: 0 <= i < |ps| ==> results[i] == Ok(ps[i])
    ensures AllOrError(results) == Ok(ps)
    decreases |ps|
  {
    if ps != [] {
      var n := |ps| - 1;
      AllSucceed(ps[..n], results[..n]);
      assert ps == ps[..n] + [ps[n]];
    }
  }

  /** The round trip: a list of metrics in range comes back as it was, tags sorted. */
  lemma PacketRoundTrip(nums: Numbers, name: string, ms: seq<Metric>, ps: seq<Parsed>)
    requires ':' !in name && ms != [] && |ps| == |ms|
    requires forall i :: 0 <= i < |ms| ==> WellFormed(ms[i])
    requires forall i :: 0 <= i < |ms| ==> Says(nums, name, ms[i], ps[i])
    ensures Parse(nums, PrintPacket(name, ms)) == Ok(ps)
  {
    hide Says, Meaning, WellFormed, Parse, PrintPacket, AllOrError;
    PrintedPacketParses(nums, name, ms);
    forall i | 0 <= i < |ms| ensures Meaning(nums, name, ms[i]) == Ok(ps[i]) {
      SaidIsMeant(nums, name, ms[i], ps[i]);
    }
    AllSucceed(ps, seq(|ms|, i requires 0 <= i < |ms| => Meaning(nums, name, ms[i])));
  }

  lemma SaidIsMeant(nums: Numbers, name: string, m: Metric, p: Parsed)
    requires Says(nums, name, m, p)
    ensures Meaning(nums, name, m) == Ok(p)
  {
    hide SortedTags, Sorted;
    if m.tags.Some? { SortedTagsIff(m.tags.value, p.tags.value); }
  }

  /** Put behind the tags, the rate keeps the datum in one piece just when no tag has a colon. */
  lemma RateBehindTagsIff(head: string, tags: seq<string>, rate: string)
    requires Bare(rate) && ':' !in head && tags != []
    ensures var datum := head + "|#" + Join(tags, ',') + "|@" + rate;
      Regrouped(Split(datum, ':')) == [datum] <==> NoneHas(tags, ':')
  {
    hide Join, Split, Cut, Regrouped, NoneHas, Grouped, OnePiece;
    var text := Join(tags, ',');
    var datum := head + "|#" + text + "|@" + rate;
    RegroupIff(datum, [datum]);
    OneDatum(datum);
    if NoneHas(tags, ':') {
      JoinLacks(tags, ',', ':');
      SplitWhole(datum, ':');
      Uncut(datum);
    } else {
      if ':' !in text { LacksFromJoin(tags, ',', ':'); }
      var p := Cut(text, ':').value;
      BarBehindColon(head + "|#" + p.0, p.1, "@" + rate);
      assert datum == (head + "|#" + p.0) + ":" + (p.1 + "|" + ("@" + rate));
    }
  }

  lemma OneDatum(datum: string)
    ensures Grouped([datum]) <==> OnePiece(datum)
    ensures Join([datum], ':') == datum
  {
    assert [datum][0] == datum;
  }

  lemma Uncut(datum: string)
    requires Split(datum, ':') == [datum]
    ensures OnePiece(datum)
  {
  }

  lemma BarBehindColon(a: string, b: string, c: string)
    ensures !OnePiece(a + ":" + (b + "|" + c))
  {
    hide Split;
    SplitAppend(a, b + "|" + c, ':');
    BarStays(b, c);
    var start, end := Split(a, ':'), Split(b + "|" + c, ':');
    var i :| 0 <= i < |end| && '|' in end[i];
    assert (start + end)[1..][|start| - 1 + i] == end[i];
  }

  lemma {:induction false} LacksFromJoin(pieces: seq<string>, sep: char, c: char)
    requires c !in Join(pieces, sep)
    ensures NoneHas(pieces, c)
    decreases |pieces|
  {
    if |pieces| > 1 {
      LacksFromJoin(pieces[1..], sep, c);
      assert forall x :: x in pieces[0] || x in Join(pieces[1..], sep) ==> x in Join(pieces, sep);
    }
  }

  lemma BarStays(a: string, b: string)
    ensures !NoneHas(Split(a + "|" + b, ':'), '|')
  {
    var s := a + "|" + b;
    JoinSplit(s, ':');
    assert s[|a|] == '|';
    assert '|' in s;
    if NoneHas(Split(s, ':'), '|') {
      JoinLacks(Split(s, ':'), ':', '|');
    }
  }

  // ---------- any packet ----------

  /** A field that ends the loop over the options. */
  predicate Ends(nums: Numbers, field: string) {
    field == "" || (field[0] == '@' && (nums.toFloat(field[1..]).None? || !(0.0 <= nums.toFloat(field[1..]).value <= 1.0)))
  }

  /** The last rate of these fields, if any. */
  function LastRate(nums: Numbers, fields: seq<string>, default: real): real
    decreases |fields|
  {
    if fields == [] then default
    else
      var n := |fields| - 1;
      if fields[n] != "" && fields[n][0] == '@' && nums.toFloat(fields[n][1..]).Some? then nums.toFloat(fields[n][1..]).value
      else LastRate(nums, fields[..n], default)
  }

  /** The last tags of these fields, if any, sorted. */
  function LastTags(fields: seq<string>, default: Option<seq<string>>): Option<seq<string>>
    decreases |fields|
  {
    if fields == [] then default
    else
      var n := |fields| - 1;
      if fields[n] != "" && fields[n][0] == '#' then Some(SortedTags(Split(fields[n][1..], ',')))
      else LastTags(fields[..n], default)
  }

  lemma {:induction false} LastFrom(nums: Numbers, field: string, rest: seq<string>, rate: real, tags: Option<seq<string>>)
    ensures LastRate(nums, [field] + rest, rate) == LastRate(nums, rest, LastRate(nums, [field], rate))
    ensures LastTags([field] + rest, tags) == LastTags(rest, LastTags([field], tags))
    decreases |rest|
  {
    hide SortedTags, Split;
    var all := [field] + rest;
    if rest == [] {
      assert all == [field];
    } else {
      var n := |rest| - 1;
      LastFrom(nums, field, rest[..n], rate, tags);
      assert all[..n + 1] == [field] + rest[..n] && all[n + 1] == rest[n];
    }
  }

  /** What the options of any fields are: the last rate and the last tags when no field ends
      the loop; otherwise, if the first that does is a rate that is no number, an error,
      and else the default rate with the last tags before it. */
  lemma {:induction false} OptionsMeaning(nums: Numbers, fields: seq<string>, rate: real, tags: Option<seq<string>>, k: nat)
    requires k <= |fields| && forall i :: 0 <= i < k ==> !Ends(nums, fields[i])
    requires k < |fields| ==> Ends(nums, fields[k])
    ensures ReadOptions(nums, fields, rate, tags) ==
            if k == |fields| then Ok((LastRate(nums, fields, rate), LastTags(fields, tags)))
            else if fields[k] != "" && nums.toFloat(fields[k][1..]).None? then Err(ValueError)
            else Ok((1.0, LastTags(fields[..k], tags)))
    decreases k
  {
    hide SortedTags, Split;
    if k > 0 {
      var f, rest := fields[0], fields[1..];
      assert [f][..0] == [];
      assert fields == [f] + rest;
      assert forall i :: 0 <= i < k - 1 ==> rest[i] == fields[i + 1];
      OptionsMeaning(nums, rest, LastRate(nums, [f], rate), LastTags([f], tags), k - 1);
      LastFrom(nums, f, rest, rate, tags);
      LastFrom(nums, f, rest[..k - 1], rate, tags);
      assert fields[..k] == [f] + rest[..k - 1];
    }
  }

  /** How any datum parses, by its fields: two at least, a value, and the options. */
  lemma DatumMeaning(nums: Numbers, name: string, fields: seq<string>)
    requires fields != [] && NoneHas(fields, '|')
    ensures var r := ParseDatum(nums, name, Join(fields, '|'));
      if |fields| < 2 then r == Err(Unparseable)
      else if NoNumber(nums, fields[0], fields[1]) then r == Err(NotANumber)
      else var o := ReadOptions(nums, fields[2..], 1.0, None);
        if o.Err? then r == Err(o.error)
        else && r.Ok? && r.value.name == name && r.value.mtype == fields[1] && r.value.rate == o.value.0 && r.value.tags == o.value.1
             && Denotes(nums, fields[0], fields[1], r.value.value)
  {
    hide ReadOptions, Join, Split;
    SplitJoin(fields, '|');
  }

  /** A packet is refused outright exactly when it has no colon; else it parses to the
      results of the data it is made of, in order, or to the first error among them. */
  lemma PacketMeaning(nums: Numbers, name: string, data: seq<string>)
    requires ':' !in name && data != [] && Grouped(data)
    ensures Parse(nums, name) == Err(Unparseable)
    ensures var r, results := Parse(nums, name + ":" + Join(data, ':')), ParseData(nums, name, data);
      && (r.Ok? <==> forall i :: 0 <= i < |data| ==> results[i].Ok?)
      && (r.Ok? ==> |r.value| == |data| && forall i :: 0 <= i < |data| ==> results[i] == Ok(r.value[i]))
      && (r.Err? ==> exists i :: 0 <= i < |data| && results[i] == Err(r.error) && forall j :: 0 <= j < i ==> results[j].Ok?)
  {
    hide Join, Split, Grouped, ParseDatum;
    GroupedDataRegroup(data);
    CutAtSep(name, Join(data, ':'), ':');
    AllOrErrorMeaning(ParseData(nums, name, data));
  }

  lemma {:induction false} AllOrErrorMeaning(results: seq<Result<Parsed, PacketError>>)
    ensures var r := AllOrError(results);
      && (r.Ok? <==> forall i :: 0 <= i < |results| ==> results[i].Ok?)
      && (r.Ok? ==> |r.value| == |results| && forall i :: 0 <= i < |results| ==> results[i] == Ok(r.value[i]))
      && (r.Err? ==> exists i :: 0 <= i < |results| && results[i] == Err(r.error) && forall j :: 0 <= j < i ==> results[j].Ok?)
    decreases |results|
  {
    if results != [] {
      var n := |results| - 1;
      AllOrErrorMeaning(results[..n]);
      var before := AllOrError(results[..n]);
      if before.Err? {
        var i :| 0 <= i < n && results[..n][i] == Err(before.error) && forall j :: 0 <= j < i ==> results[..n][j].Ok?;
        assert results[i] == Err(before.error) && forall j :: 0 <= j < i ==> results[j] == results[..n][j];
      } else {
        assert forall i :: 0 <= i < n ==> results[i] == results[..n][i];
        if results[n].Err? { assert results[n] == Err(AllOrError(results).error); }
      }
    }
  }
}
