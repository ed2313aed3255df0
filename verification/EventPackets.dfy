/**
 The event packet parser: `_e{5,4}:title|text|t:...|#tag,tag`. Title and text are
 cut by their announced lengths, so they may hold any character; the text has its
 newlines escaped.
 */
module EventPackets {
  import opened Prelude
  import opened Text

  datatype Event = Event(
    title: string,
    text: string,
    alertType: Option<string>,
    aggregationKey: Option<string>,
    sourceTypeName: Option<string>,
    dateHappened: Option<int>,
    priority: Option<string>,
    hostname: Option<string>,
    tags: Option<seq<string>>)

  function Untitled(title: string, text: string): Event {
    Event(title, text, None, None, None, None, None, None, None)
  }

  // ---------- newlines ----------

  /** `string.replace('\\n', '\n')`: every backslash followed by an n becomes a newline. */
  function Unescape(s: string): string
    decreases |s|
  {
    if |s| < 2 then s
    else if s[0] == '\\' && s[1] == 'n' then "\n" + Unescape(s[2..])
    else [s[0]] + Unescape(s[1..])
  }

  /** What a client does to the text. */
  function Escape(s: string): string
    decreases |s|
  {
    if s == "" then ""
    else (if s[0] == '\n' then "\\n" else [s[0]]) + Escape(s[1..])
  }

  /** A backslash followed by an n, left to right without overlap. */
  function Literals(s: string): nat
    decreases |s|
  {
    if |s| < 2 then 0
    else if s[0] == '\\' && s[1] == 'n' then 1 + Literals(s[2..])
    else Literals(s[1..])
  }

  ghost predicate HasLiteral(s: string) {
    exists i :: 0 <= i < |s| - 1 && s[i] == '\\' && s[i + 1] == 'n'
  }

  lemma {:induction false} LiteralsCount(s: string)
    ensures Literals(s) > 0 <==> HasLiteral(s)
    decreases |s|
  {
    if |s| >= 2 && !(s[0] == '\\' && s[1] == 'n') {
      LiteralsCount(s[1..]);
      if HasLiteral(s) {
        var i :| 0 <= i < |s| - 1 && s[i] == '\\' && s[i + 1] == 'n';
        assert s[1..][i - 1] == '\\' && s[1..][i] == 'n';
      }
      if HasLiteral(s[1..]) {
        var i :| 0 <= i < |s| - 2 && s[1..][i] == '\\' && s[1..][i + 1] == 'n';
        assert s[i + 1] == '\\' && s[i + 2] == 'n';
      }
    }
  }

  /** Every literal pair costs one character, and nothing else changes. */
  lemma {:induction false} UnescapeEscape(s: string)
    ensures |Unescape(Escape(s))| + Literals(s) == |s|
    ensures Literals(s) == 0 ==> Unescape(Escape(s)) == s
    decreases |s|
  {
    var e := Escape(s);
    if s == "" {
    } else if s[0] == '\n' {
      UnescapeEscape(s[1..]);
      assert e[2..] == Escape(s[1..]);
      assert s == "\n" + s[1..];
    } else if |s| >= 2 && s[0] == '\\' && s[1] == 'n' {
      UnescapeEscape(s[2..]);
      assert s[1..][1..] == s[2..];
      assert Escape(s[1..]) == "n" + Escape(s[2..]);
      assert e == "\\n" + Escape(s[2..]);
      assert e[2..] == Escape(s[2..]);
    } else {
      UnescapeEscape(s[1..]);
      var rest := Escape(s[1..]);
      assert e == [s[0]] + rest && e[1..] == rest;
      assert s == [s[0]] + s[1..];
      if |s| >= 2 {
        assert rest[0] == if s[1] == '\n' then '\\' else s[1];
      }
    }
  }

  /** Texts survive exactly when they hold no backslash followed by an n. */
  lemma {:induction false} TextSurvivesIff(s: string)
    ensures Unescape(Escape(s)) == s <==> !HasLiteral(s)
  {
    UnescapeEscape(s);
    LiteralsCount(s);
  }

  // ---------- optional fields ----------

  datatype Field =
    | AlertType(text: string)
    | AggregationKey(text: string)
    | SourceTypeName(text: string)
    | DateHappened(date: int)
    | Priority(text: string)
    | Hostname(text: string)
    | Tags(tags: seq<string>)

  function With(e: Event, f: Field): Event {
    match f
    case AlertType(s) => e.(alertType := Some(s))
    case AggregationKey(s) => e.(aggregationKey := Some(s))
    case SourceTypeName(s) => e.(sourceTypeName := Some(s))
    case DateHappened(d) => e.(dateHappened := Some(d))
    case Priority(s) => e.(priority := Some(s))
    case Hostname(s) => e.(hostname := Some(s))
    case Tags(ts) => e.(tags := Some(SortedTags(ts)))
  }

  function WithAll(e: Event, fields: seq<Field>): Event
    decreases |fields|
  {
    if fields == [] then e else WithAll(With(e, fields[0]), fields[1..])
  }

  /** The event after one optional field; `None` is the IndexError of an empty field or
      the ValueError of a date that is no number. */
  function ReadField(e: Event, m: string): Option<Event> {
    if m == "" then None
    else
      var rest := From(m, 2);
      match m[0]
      case 't' => Some(e.(alertType := Some(rest)))
      case 'k' => Some(e.(aggregationKey := Some(rest)))
      case 's' => Some(e.(sourceTypeName := Some(rest)))
      case 'd' => (match ParseInt(rest) case None => None case Some(d) => Some(e.(dateHappened := Some(d))))
      case 'p' => Some(e.(priority := Some(rest)))
      case 'h' => Some(e.(hostname := Some(rest)))
      case '#' => Some(e.(tags := Some(SortedTags(Split(m[1..], ',')))))
      case _ => Some(e)
  }

  function ReadFields(e: Event, ms: seq<string>): Option<Event>
    decreases |ms|
  {
    if ms == [] then Some(e)
    else
      match ReadField(e, ms[0])
      case None => None
      case Some(e') => ReadFields(e', ms[1..])
  }

  method ParseFields(e: Event, ms: seq<string>) returns (r: Option<Event>)
    ensures r == ReadFields(e, ms)
  {
    var event := e;
    for i := 0 to |ms|
      invariant ReadFields(event, ms[i..]) == ReadFields(e, ms)
    {
      assert ms[i..][0] == ms[i] && ms[i..][1..] == ms[i + 1..];
      var next := ReadField(event, ms[i]);
      if next.None? {
        return None;
      }
      event := next.value;
    }
    r := Some(event);
  }

  // ---------- the packet ----------

  /** The two announced lengths. */
  function Lengths(name: string): Option<(int, int)> {
    var parts := Split(name, ',');
    if |parts| != 2 then None
    else
      var title, text := ParseInt(From(parts[0], 3)), ParseInt(Slice(parts[1], 0, -1));
      if title.None? || text.None? then None else Some((title.value, text.value))
  }

  function Parse(packet: string): Option<Event> {
    match Cut(packet, ':')
    case None => None
    case Some(p) =>
      match Lengths(p.0)
      case None => None
      case Some(n) =>
        var event := Untitled(Slice(p.1, 0, n.0), Unescape(Slice(p.1, n.0 + 1, n.0 + n.1 + 1)));
        ReadFields(event, Split(From(p.1, n.0 + n.1 + 1), '|')[1..])
  }

  method ParseEventPacket(packet: string) returns (r: Option<Event>)
    ensures r == Parse(packet)
  {
    var cut := Cut(packet, ':');
    if cut.None? {
      return None;
    }
    var lengths := Lengths(cut.value.0);
    if lengths.None? {
      return None;
    }
    var metadata, titleLength, textLength := cut.value.1, lengths.value.0, lengths.value.1;
    var event := Untitled(Slice(metadata, 0, titleLength),
                          Unescape(Slice(metadata, titleLength + 1, titleLength + textLength + 1)));
    var meta := From(metadata, titleLength + textLength + 1);
    r := ParseFields(event, Split(meta, '|')[1..]);
  }

  // ---------- printing ----------

  function PrintField(f: Field): string {
    match f
    case AlertType(s) => "t:" + s
    case AggregationKey(s) => "k:" + s
    case SourceTypeName(s) => "s:" + s
    case DateHappened(d) => "d:" + Decimal(d)
    case Priority(s) => "p:" + s
    case Hostname(s) => "h:" + s
    case Tags(ts) => "#" + Join(ts, ',')
  }

  function PrintFields(fields: seq<Field>): seq<string> {
    seq(|fields|, i requires 0 <= i < |fields| => PrintField(fields[i]))
  }

  function Header(title: string, text: string): string {
    "_e{" + Decimal(|title|) + "," + Decimal(|text|) + "}"
  }

  /** A packet; the announced length is that of the text as it is sent. */
  function PrintEvent(title: string, text: string, fields: seq<Field>): string {
    Header(title, Escape(text)) + ":" + title + "|" + Join([Escape(text)] + PrintFields(fields), '|')
  }

  ghost predicate WellFormed(f: Field) {
    match f
    case DateHappened(_) => true
    case Tags(ts) => ts != [] && NoneHas(ts, '|') && NoneHas(ts, ',')
    case _ => '|' !in f.text
  }

  lemma PrintedFieldReads(e: Event, f: Field)
    requires WellFormed(f)
    ensures ReadField(e, PrintField(f)) == Some(With(e, f))
    ensures '|' !in PrintField(f)
  {
    hide From, Decimal, ParseInt, Split, Join, SortedTags, IsDigit;
    match f {
      case DateHappened(d) =>
        BehindKey("d:", Decimal(d));
        DecimalRoundTrip(d);
        NoBarInDecimal(d);
      case Tags(ts) =>
        JoinLacks(ts, ',', '|');
        SplitJoin(ts, ',');
        assert PrintField(f)[1..] == Join(ts, ',');
      case AlertType(s) => BehindKey("t:", s);
      case AggregationKey(s) => BehindKey("k:", s);
      case SourceTypeName(s) => BehindKey("s:", s);
      case Priority(s) => BehindKey("p:", s);
      case Hostname(s) => BehindKey("h:", s);
    }
  }

  lemma BehindKey(key: string, s: string)
    requires |key| == 2
    ensures From(key + s, 2) == s
  {
  }

  lemma NoBarInDecimal(d: int)
    ensures '|' !in Decimal(d)
  {
    hide Decimal;
    DecimalIsBare(d);
  }

  lemma {:induction false} PrintedFieldsRead(e: Event, fields: seq<Field>)
    requires forall i :: 0 <= i < |fields| ==> WellFormed(fields[i])
    ensures ReadFields(e, PrintFields(fields)) == Some(WithAll(e, fields))
    ensures NoneHas(PrintFields(fields), '|')
    decreases |fields|
  {
    if fields != [] {
      PrintedFieldReads(e, fields[0]);
      PrintedFieldsRead(With(e, fields[0]), fields[1..]);
      assert PrintFields(fields) == [PrintField(fields[0])] + PrintFields(fields[1..]);
    }
  }

  lemma HeaderReads(title: string, text: string)
    ensures ':' !in Header(title, text)
    ensures Lengths(Header(title, text)) == Some((|title|, |text|))
  {
    hide Decimal, ParseInt, IsSpace, Split;
    var a, b := Decimal(|title|), Decimal(|text|);
    DecimalRoundTrip(|title|);
    DecimalRoundTrip(|text|);
    DecimalIsBare(|title|);
    DecimalIsBare(|text|);
    assert forall c :: c in a || c in b ==> c != ':' && c != ',';
    assert Header(title, text) == ("_e{" + a) + "," + (b + "}");
    SplitAppend("_e{" + a, b + "}", ',');
    SplitWhole("_e{" + a, ',');
    SplitWhole(b + "}", ',');
    assert From("_e{" + a, 3) == a && Slice(b + "}", 0, -1) == b;
  }

  /** What follows the colon comes apart at the announced lengths. */
  lemma BodyReads(title: string, text: string, fields: seq<string>)
    requires NoneHas(fields, '|')
    ensures var body := title + "|" + Join([text] + fields, '|');
      && Slice(body, 0, |title|) == title
      && Slice(body, |title| + 1, |title| + |text| + 1) == text
      && Split(From(body, |title| + |text| + 1), '|')[1..] == fields
  {
    var body := title + "|" + Join([text] + fields, '|');
    var meta := if fields == [] then "" else "|" + Join(fields, '|');
    if fields == [] {
      assert [text] + fields == [text];
    } else {
      assert ([text] + fields)[1..] == fields;
      SplitAppend("", Join(fields, '|'), '|');
      SplitJoin(fields, '|');
      assert "" + "|" + Join(fields, '|') == meta;
    }
    assert body == title + "|" + text + meta;
    assert From(body, |title| + |text| + 1) == meta;
  }

  /** How a packet with a readable header parses. */
  lemma ParsesAt(header: string, body: string, titleLength: int, textLength: int)
    requires Cut(header + ":" + body, ':') == Some((header, body)) && Lengths(header) == Some((titleLength, textLength))
    ensures Parse(header + ":" + body) ==
            ReadFields(Untitled(Slice(body, 0, titleLength), Unescape(Slice(body, titleLength + 1, titleLength + textLength + 1))),
                       Split(From(body, titleLength + textLength + 1), '|')[1..])
  {
    hide Cut, Lengths, ReadFields, Slice, From, Split, Unescape, Untitled;
  }

  lemma PrintedEventParses(title: string, text: string, fields: seq<Field>)
    requires forall i :: 0 <= i < |fields| ==> WellFormed(fields[i])
    ensures Parse(PrintEvent(title, text, fields)) == Some(WithAll(Untitled(title, Unescape(Escape(text))), fields))
  {
    hide Header, Lengths, PrintFields, Escape, Unescape, WithAll, ReadFields, Slice, From, Split, Join, Cut, WellFormed, Parse,
         Untitled, NoneHas;
    var sent, metas := Escape(text), PrintFields(fields);
    var header, body := Header(title, sent), title + "|" + Join([sent] + metas, '|');
    HeaderReads(title, sent);
    CutAtSep(header, body, ':');
    PrintedFieldsRead(Untitled(title, Unescape(sent)), fields);
    BodyReads(title, sent, metas);
    ParsesAt(header, body, |title|, |sent|);
    assert PrintEvent(title, text, fields) == header + ":" + body;
  }

  /** Events with arbitrary titles parse back to themselves with their fields set in
      order and their tags sorted; so does the text exactly when it holds no backslash
      followed by an n. */
  lemma EventRoundTrip(title: string, text: string, fields: seq<Field>)
    requires forall i :: 0 <= i < |fields| ==> WellFormed(fields[i])
    ensures var parsed := Parse(PrintEvent(title, text, fields));
      && parsed == Some(WithAll(Untitled(title, Unescape(Escape(text))), fields))
      && (parsed == Some(WithAll(Untitled(title, text), fields)) <==> !HasLiteral(text))
  {
    hide PrintEvent, Parse, Escape, Unescape, WithAll, HasLiteral, WellFormed;
    PrintedEventParses(title, text, fields);
    TextSurvivesIff(text);
    FieldsKeepText(Untitled(title, Unescape(Escape(text))), fields);
    FieldsKeepText(Untitled(title, text), fields);
  }

  lemma {:induction false} FieldsKeepText(e: Event, fields: seq<Field>)
    ensures WithAll(e, fields).title == e.title && WithAll(e, fields).text == e.text
    decreases |fields|
  {
    if fields != [] {
      FieldsKeepText(With(e, fields[0]), fields[1..]);
    }
  }

  // ---------- any packet ----------

  /** A field that makes the packet unparseable: an empty one, or a date that is no integer. */
  predicate BadField(m: string) {
    m == "" || (m[0] == 'd' && ParseInt(From(m, 2)) == None)
  }

  /** A field is refused exactly when it is bad, and ignored when its letter is unknown. */
  lemma FieldMeaning(e: Event, m: string)
    ensures ReadField(e, m) == None <==> BadField(m)
    ensures m != "" && m[0] !in "tksdph#" ==> ReadField(e, m) == Some(e)
  {
    hide From, ParseInt, SortedTags, Split;
    assert m != "" && m[0] !in "tksdph#" ==>
      m[0] != 't' && m[0] != 'k' && m[0] != 's' && m[0] != 'd' && m[0] != 'p' && m[0] != 'h' && m[0] != '#' by {
      assert 't' == "tksdph#"[0] && 'k' == "tksdph#"[1] && 's' == "tksdph#"[2] && 'd' == "tksdph#"[3];
      assert 'p' == "tksdph#"[4] && 'h' == "tksdph#"[5] && '#' == "tksdph#"[6];
    }
  }

  ghost predicate AnyBad(ms: seq<string>) {
    exists i :: 0 <= i < |ms| && BadField(ms[i])
  }

  lemma {:induction false} FieldsRefusedIff(e: Event, ms: seq<string>)
    ensures ReadFields(e, ms) == None <==> AnyBad(ms)
    decreases |ms|
  {
    hide ReadField, BadField;
    if ms != [] {
      FieldMeaning(e, ms[0]);
      var next := ReadField(e, ms[0]);
      if next.Some? {
        FieldsRefusedIff(next.value, ms[1..]);
        if AnyBad(ms) {
          var i :| 0 <= i < |ms| && BadField(ms[i]);
          assert ms[1..][i - 1] == ms[i];
        }
        if AnyBad(ms[1..]) {
          var i :| 0 <= i < |ms[1..]| && BadField(ms[1..][i]);
          assert ms[i + 1] == ms[1..][i];
        }
      }
    }
  }

  /** The header must have exactly one comma, an integer from the fourth character on before
      it, and an integer up to the last character after it. */
  lemma LengthsMeaning(parts: seq<string>)
    requires parts != [] && NoneHas(parts, ',')
    ensures var r := Lengths(Join(parts, ','));
      if |parts| != 2 then r == None
      else var title, text := ParseInt(From(parts[0], 3)), ParseInt(Slice(parts[1], 0, -1));
        r == if title.None? || text.None? then None else Some((title.value, text.value))
  {
    hide Join, Split, ParseInt, From, Slice;
    SplitJoin(parts, ',');
  }

  /** A packet is unparseable exactly when it has no colon, its header has no two lengths, or
      one of the fields behind the text is bad. */
  lemma PacketRefusedIff(header: string, body: string)
    requires ':' !in header
    ensures Parse(header) == None
    ensures var n := Lengths(header);
      Parse(header + ":" + body) == None <==>
      n.None? || AnyBad(Split(From(body, n.value.0 + n.value.1 + 1), '|')[1..])
  {
    hide Lengths, ReadFields, Slice, From, Split, Unescape, Untitled, AnyBad, Cut;
    CutAtSep(header, body, ':');
    NoCut(header);
    var n := Lengths(header);
    if n.Some? {
      var event := Untitled(Slice(body, 0, n.value.0), Unescape(Slice(body, n.value.0 + 1, n.value.0 + n.value.1 + 1)));
      FieldsRefusedIff(event, Split(From(body, n.value.0 + n.value.1 + 1), '|')[1..]);
    }
  }

  lemma NoCut(s: string)
    requires ':' !in s
    ensures Cut(s, ':') == None
  {
  }
}
