/** `sheetToJSONSafe` and `parseWorkbook` of api/server.js: the projection of the
    `ROWS`, `TEXT` and `LINE` sheets into the chart payload. */
module Sheets {
  import opened Cells

  /** A workbook after `XLSX.readFile`: each sheet already converted to its
      records by `sheet_to_json`. */
  type Workbook = map<string, seq<Record>>

  /** One entry of `ROWS`. */
  datatype Row = Row(body: string, subtitle: string, seen: JsNumber, unseen: JsNumber, audience: string)

  /** The payload `parseWorkbook` returns. */
  datatype Parsed = Parsed(
    rows: seq<Row>,
    titles: seq<string>,
    headlines: seq<string>,
    bodies: seq<string>,
    lineLabels: seq<string>,
    lineSeen: seq<JsNumber>)

  // The `??` chains of parseWorkbook, in source order.
  const BodyKeys: seq<string> := ["body", "Body", "BODY"]
  const SubtitleKeys: seq<string> := ["subtitle", "Subtitle", "SUBTITLE"]
  const SeenKeys: seq<string> := ["seen", "Seen", "SEEN"]
  const UnseenKeys: seq<string> := ["unseen", "Unseen", "UNSEEN"]
  const AudienceKeys: seq<string> := ["audience", "Audience", "AUDIENCE"]
  const TitleKeys: seq<string> := ["title", "Title"]
  const HeadlineKeys: seq<string> := ["headline", "Headline"]
  const BodyTextKeys: seq<string> := ["bodyText", "BodyText", "body"]
  const LabelKeys: seq<string> := ["label", "Label", "body"]
  /** The LINE sheet's seen chain names `seen` twice and never `SEEN`. */
  const LineSeenKeys: seq<string> := ["seen", "Seen", "seen"]

  const EmptyText: Cell := Text("")
  const Zero: Cell := Number(0.0)

  /** The records of sheet `name`, or none when the workbook has no such sheet. */
  function SheetToJsonSafe(wb: Workbook, name: string): (rs: seq<Record>)
    ensures name in wb ==> rs == wb[name]
    ensures name !in wb ==> rs == []
  {
    if name in wb then wb[name] else []
  }

  /** One record of the ROWS sheet as an entry of `ROWS`. A field none of
      whose three spellings holds a value is the conversion of `''` or `0`. */
  function ProjectRow(r: Record, co: Coercion): (row: Row)
    ensures !Defined(r, "body") && !Defined(r, "Body") && !Defined(r, "BODY") ==>
              row.body == co.toString(EmptyText)
    ensures !Defined(r, "subtitle") && !Defined(r, "Subtitle") && !Defined(r, "SUBTITLE") ==>
              row.subtitle == co.toString(EmptyText)
    ensures !Defined(r, "seen") && !Defined(r, "Seen") && !Defined(r, "SEEN") ==>
              row.seen == co.toNumber(Zero)
    ensures !Defined(r, "unseen") && !Defined(r, "Unseen") && !Defined(r, "UNSEEN") ==>
              row.unseen == co.toNumber(Zero)
    ensures !Defined(r, "audience") && !Defined(r, "Audience") && !Defined(r, "AUDIENCE") ==>
              row.audience == co.toString(EmptyText)
  {
    Row(
      co.toString(Coalesce(r, BodyKeys, EmptyText)),
      co.toString(Coalesce(r, SubtitleKeys, EmptyText)),
      co.toNumber(Coalesce(r, SeenKeys, Zero)),
      co.toNumber(Coalesce(r, UnseenKeys, Zero)),
      co.toString(Coalesce(r, AudienceKeys, EmptyText)))
  }

  /** `rRows.map(...)`. */
  function ProjectRows(rRows: seq<Record>, co: Coercion): (rows: seq<Row>)
    ensures |rows| == |rRows|
  {
    seq(|rRows|, i requires 0 <= i < |rRows| => ProjectRow(rRows[i], co))
  }

  /** `rs[i]`, where reading past the end gives `undefined`; `undefined?.k` is
      `undefined`, exactly as for a record without key `k`. */
  function RecordAt(rs: seq<Record>, i: nat): Record {
    if i < |rs| then rs[i] else map[]
  }

  /** `ROWS.map((_, i) => String(rText[i]?.k1 ?? rText[i]?.k2 ?? ... ?? ''))`:
      one entry per row of ROWS, whatever the length of the TEXT sheet. */
  function TextColumn(n: nat, rText: seq<Record>, keys: seq<string>, co: Coercion): (col: seq<string>)
    ensures |col| == n
  {
    seq(n, i requires 0 <= i < n => co.toString(Coalesce(RecordAt(rText, i), keys, EmptyText)))
  }

  /** `LINE_LABELS`: from the LINE sheet when it has rows, else each ROWS entry's
      body (`x.label` and `x.Label` are undefined on a ROWS entry and `String`
      leaves its string `body` alone). */
  function LineLabels(rLine: seq<Record>, rows: seq<Row>, co: Coercion): (labels: seq<string>)
    ensures |labels| == if |rLine| > 0 then |rLine| else |rows|
  {
    if |rLine| > 0 then
      seq(|rLine|, i requires 0 <= i < |rLine| => co.toString(Coalesce(rLine[i], LabelKeys, EmptyText)))
    else
      seq(|rows|, i requires 0 <= i < |rows| => rows[i].body)
  }

  /** `LINE_SEEN`: as `LineLabels`, with each ROWS entry's already converted
      `seen` (never nullish, and `Number` leaves a number alone). */
  function LineSeen(rLine: seq<Record>, rows: seq<Row>, co: Coercion): (seen: seq<JsNumber>)
    ensures |seen| == if |rLine| > 0 then |rLine| else |rows|
  {
    if |rLine| > 0 then
      seq(|rLine|, i requires 0 <= i < |rLine| => co.toNumber(Coalesce(rLine[i], LineSeenKeys, Zero)))
    else
      seq(|rows|, i requires 0 <= i < |rows| => rows[i].seen)
  }

  /** `parseWorkbook` once the file has been read. */
  function ParseWorkbook(wb: Workbook, co: Coercion): (p: Parsed)
    ensures |p.rows| == |SheetToJsonSafe(wb, "ROWS")|
    ensures |p.titles| == |p.rows| && |p.headlines| == |p.rows| && |p.bodies| == |p.rows|
    ensures |p.lineLabels| == |p.lineSeen|
    ensures |p.lineLabels| == if |SheetToJsonSafe(wb, "LINE")| > 0 then |SheetToJsonSafe(wb, "LINE")| else |p.rows|
  {
    var rRows := SheetToJsonSafe(wb, "ROWS");
    var rText := SheetToJsonSafe(wb, "TEXT");
    var rLine := SheetToJsonSafe(wb, "LINE");
    var rows := ProjectRows(rRows, co);
    Parsed(
      rows,
      TextColumn(|rows|, rText, TitleKeys, co),
      TextColumn(|rows|, rText, HeadlineKeys, co),
      TextColumn(|rows|, rText, BodyTextKeys, co),
      LineLabels(rLine, rows, co),
      LineSeen(rLine, rows, co))
  }

  /** ROWS has exactly one entry per record of the ROWS sheet, in sheet order;
      a workbook without that sheet gives no rows at all. */
  lemma RowsFollowSheet(wb: Workbook, co: Coercion)
    ensures var rRows := SheetToJsonSafe(wb, "ROWS");
            var rows := ParseWorkbook(wb, co).rows;
            && |rows| == |rRows|
            && (forall i | 0 <= i < |rows| :: rows[i] == ProjectRow(rRows[i], co))
            && ("ROWS" !in wb ==> rows == [])
  {
  }

  /** Each field takes the first defined value of its lowercase, Capitalised and
      UPPERCASE keys, in that order. */
  lemma RowFieldPrecedence(r: Record, co: Coercion)
    ensures Defined(r, "body") ==> ProjectRow(r, co).body == co.toString(r["body"])
    ensures !Defined(r, "body") && Defined(r, "Body") ==> ProjectRow(r, co).body == co.toString(r["Body"])
    ensures !Defined(r, "body") && !Defined(r, "Body") && Defined(r, "BODY") ==>
              ProjectRow(r, co).body == co.toString(r["BODY"])
    ensures Defined(r, "seen") ==> ProjectRow(r, co).seen == co.toNumber(r["seen"])
    ensures !Defined(r, "seen") && Defined(r, "Seen") ==> ProjectRow(r, co).seen == co.toNumber(r["Seen"])
    ensures !Defined(r, "seen") && !Defined(r, "Seen") && Defined(r, "SEEN") ==>
              ProjectRow(r, co).seen == co.toNumber(r["SEEN"])
    ensures Defined(r, "subtitle") ==> ProjectRow(r, co).subtitle == co.toString(r["subtitle"])
    ensures !Defined(r, "subtitle") && Defined(r, "Subtitle") ==> ProjectRow(r, co).subtitle == co.toString(r["Subtitle"])
    ensures !Defined(r, "subtitle") && !Defined(r, "Subtitle") && Defined(r, "SUBTITLE") ==>
              ProjectRow(r, co).subtitle == co.toString(r["SUBTITLE"])
    ensures Defined(r, "unseen") ==> ProjectRow(r, co).unseen == co.toNumber(r["unseen"])
    ensures !Defined(r, "unseen") && Defined(r, "Unseen") ==> ProjectRow(r, co).unseen == co.toNumber(r["Unseen"])
    ensures !Defined(r, "unseen") && !Defined(r, "Unseen") && Defined(r, "UNSEEN") ==>
              ProjectRow(r, co).unseen == co.toNumber(r["UNSEEN"])
    ensures Defined(r, "audience") ==> ProjectRow(r, co).audience == co.toString(r["audience"])
    ensures !Defined(r, "audience") && Defined(r, "Audience") ==> ProjectRow(r, co).audience == co.toString(r["Audience"])
    ensures !Defined(r, "audience") && !Defined(r, "Audience") && Defined(r, "AUDIENCE") ==>
              ProjectRow(r, co).audience == co.toString(r["AUDIENCE"])
  {
    assert BodyKeys[0] == "body" && BodyKeys[1] == "Body" && BodyKeys[2] == "BODY";
    assert SeenKeys[0] == "seen" && SeenKeys[1] == "Seen" && SeenKeys[2] == "SEEN";
    assert SubtitleKeys[0] == "subtitle" && SubtitleKeys[1] == "Subtitle" && SubtitleKeys[2] == "SUBTITLE";
    assert UnseenKeys[0] == "unseen" && UnseenKeys[1] == "Unseen" && UnseenKeys[2] == "UNSEEN";
    assert AudienceKeys[0] == "audience" && AudienceKeys[1] == "Audience" && AudienceKeys[2] == "AUDIENCE";
  }

  /** A record with none of a field's keys gets `''` for text fields and `0` for
      counts. */
  lemma RowFieldDefaults(r: Record, co: Coercion)
    requires IsJsCoercion(co)
    ensures (forall k | k in BodyKeys :: !Defined(r, k)) ==> ProjectRow(r, co).body == ""
    ensures (forall k | k in SubtitleKeys :: !Defined(r, k)) ==> ProjectRow(r, co).subtitle == ""
    ensures (forall k | k in SeenKeys :: !Defined(r, k)) ==> ProjectRow(r, co).seen == Finite(0.0)
    ensures (forall k | k in UnseenKeys :: !Defined(r, k)) ==> ProjectRow(r, co).unseen == Finite(0.0)
    ensures (forall k | k in AudienceKeys :: !Defined(r, k)) ==> ProjectRow(r, co).audience == ""
  {
  }

  /** `??` only skips `null` and `undefined`: an empty lowercase `body` or `seen`
      cell wins over a filled `Body`/`BODY` or `Seen`/`SEEN` column. */
  lemma EmptyLowercaseCellShadows(r: Record, co: Coercion, other: string)
    requires IsJsCoercion(co)
    requires "body" in r && r["body"] == Text("")
    requires "seen" in r && r["seen"] == Text("")
    ensures ProjectRow(r, co).body == ""
    ensures ProjectRow(r, co).seen == co.toNumber(Text(""))
    ensures ProjectRow(r["Body" := Text(other)], co).body == ""
  {
    assert Defined(r, BodyKeys[0]);
    assert Defined(r, SeenKeys[0]);
    assert Defined(r["Body" := Text(other)], BodyKeys[0]);
  }

  /** TITLES, HEADLINES and BODIES follow ROWS index by index: entry i is `''`
      when the TEXT sheet has no row i or that row has none of the keys;
      otherwise TITLES takes `title`, then `Title`, HEADLINES takes `headline`,
      then `Headline`, and BODIES falls back from `bodyText` to `BodyText` to
      `body`. */
  lemma TextColumnsAlign(wb: Workbook, co: Coercion, i: nat)
    requires IsJsCoercion(co)
    requires i < |SheetToJsonSafe(wb, "ROWS")|
    ensures var rText := SheetToJsonSafe(wb, "TEXT");
            var p := ParseWorkbook(wb, co);
            && (i >= |rText| ==> p.titles[i] == "" && p.headlines[i] == "" && p.bodies[i] == "")
            && (i < |rText| && Defined(rText[i], "title") ==> p.titles[i] == co.toString(rText[i]["title"]))
            && (i < |rText| && !Defined(rText[i], "title") && Defined(rText[i], "Title") ==>
                  p.titles[i] == co.toString(rText[i]["Title"]))
            && (i < |rText| && !Defined(rText[i], "title") && !Defined(rText[i], "Title") ==> p.titles[i] == "")
            && (i < |rText| && Defined(rText[i], "headline") ==> p.headlines[i] == co.toString(rText[i]["headline"]))
            && (i < |rText| && !Defined(rText[i], "headline") && Defined(rText[i], "Headline") ==>
                  p.headlines[i] == co.toString(rText[i]["Headline"]))
            && (i < |rText| && !Defined(rText[i], "headline") && !Defined(rText[i], "Headline") ==> p.headlines[i] == "")
            && (i < |rText| && Defined(rText[i], "bodyText") ==> p.bodies[i] == co.toString(rText[i]["bodyText"]))
            && (i < |rText| && !Defined(rText[i], "bodyText") && Defined(rText[i], "BodyText") ==>
                  p.bodies[i] == co.toString(rText[i]["BodyText"]))
            && (i < |rText| && !Defined(rText[i], "bodyText") && !Defined(rText[i], "BodyText") && Defined(rText[i], "body") ==>
                  p.bodies[i] == co.toString(rText[i]["body"]))
            && (i < |rText| && !Defined(rText[i], "bodyText") && !Defined(rText[i], "BodyText") && !Defined(rText[i], "body") ==>
                  p.bodies[i] == "")
  {
    var rText := SheetToJsonSafe(wb, "TEXT");
    var p := ParseWorkbook(wb, co);
    var rec := RecordAt(rText, i);
    assert p.titles[i] == co.toString(Coalesce(rec, TitleKeys, EmptyText));
    assert p.headlines[i] == co.toString(Coalesce(rec, HeadlineKeys, EmptyText));
    assert p.bodies[i] == co.toString(Coalesce(rec, BodyTextKeys, EmptyText));
    assert TitleKeys[0] == "title" && TitleKeys[1] == "Title";
    assert HeadlineKeys[0] == "headline" && HeadlineKeys[1] == "Headline";
    assert BodyTextKeys[0] == "bodyText" && BodyTextKeys[1] == "BodyText" && BodyTextKeys[2] == "body";
    if !Defined(rec, "bodyText") && !Defined(rec, "BodyText") {
      assert BodyTextKeys[2..] == ["body"];
      assert Coalesce(rec, BodyTextKeys, EmptyText) == Coalesce(rec, BodyTextKeys[1..], EmptyText)
          == Coalesce(rec, BodyTextKeys[2..], EmptyText);
    }
  }

  /** Without a LINE sheet (or with an empty one) the line series repeat ROWS:
      label i is ROWS[i].body and value i is ROWS[i].seen. */
  lemma LineFallsBackToRows(wb: Workbook, co: Coercion)
    requires |SheetToJsonSafe(wb, "LINE")| == 0
    ensures var p := ParseWorkbook(wb, co);
            && |p.lineLabels| == |p.rows| && |p.lineSeen| == |p.rows|
            && (forall i | 0 <= i < |p.rows| :: p.lineLabels[i] == p.rows[i].body && p.lineSeen[i] == p.rows[i].seen)
  {
  }

  /** With a non-empty LINE sheet, label i comes from `label`, then `Label`,
      then `body` of LINE row i, and value i from `seen`, then `Seen`. */
  lemma LineFollowsLineSheet(wb: Workbook, co: Coercion, i: nat)
    requires IsJsCoercion(co)
    requires i < |SheetToJsonSafe(wb, "LINE")|
    ensures var r := SheetToJsonSafe(wb, "LINE")[i];
            var p := ParseWorkbook(wb, co);
            && (Defined(r, "label") ==> p.lineLabels[i] == co.toString(r["label"]))
            && (!Defined(r, "label") && Defined(r, "Label") ==> p.lineLabels[i] == co.toString(r["Label"]))
            && (!Defined(r, "label") && !Defined(r, "Label") && Defined(r, "body") ==> p.lineLabels[i] == co.toString(r["body"]))
            && (!Defined(r, "label") && !Defined(r, "Label") && !Defined(r, "body") ==> p.lineLabels[i] == "")
            && (Defined(r, "seen") ==> p.lineSeen[i] == co.toNumber(r["seen"]))
            && (!Defined(r, "seen") && Defined(r, "Seen") ==> p.lineSeen[i] == co.toNumber(r["Seen"]))
            && (!Defined(r, "seen") && !Defined(r, "Seen") ==> p.lineSeen[i] == Finite(0.0))
  {
    var r := SheetToJsonSafe(wb, "LINE")[i];
    var p := ParseWorkbook(wb, co);
    assert p.lineLabels[i] == co.toString(Coalesce(r, LabelKeys, EmptyText));
    assert p.lineSeen[i] == co.toNumber(Coalesce(r, LineSeenKeys, Zero));
    assert LabelKeys[0] == "label" && LabelKeys[1] == "Label" && LabelKeys[2] == "body";
    assert LineSeenKeys[0] == "seen" && LineSeenKeys[1] == "Seen" && LineSeenKeys[2] == "seen";
  }

  /** The LINE sheet's `SEEN` column is never read: overwriting it in every
      record leaves LINE_SEEN unchanged. */
  lemma LineSeenIgnoresUppercase(rLine: seq<Record>, rows: seq<Row>, co: Coercion, c: Cell)
    ensures LineSeen(seq(|rLine|, i requires 0 <= i < |rLine| => rLine[i]["SEEN" := c]), rows, co)
         == LineSeen(rLine, rows, co)
  {
    var rLine' := seq(|rLine|, i requires 0 <= i < |rLine| => rLine[i]["SEEN" := c]);
    forall i | 0 <= i < |rLine|
      ensures Coalesce(rLine'[i], LineSeenKeys, Zero) == Coalesce(rLine[i], LineSeenKeys, Zero)
    {
      CoalesceDependsOnlyOnKeys(rLine'[i], rLine[i], LineSeenKeys, Zero);
    }
  }

  /** The same `SEEN` column is read on the ROWS sheet but not on the LINE
      sheet: a record whose only count is under `SEEN` has 5 views in ROWS and
      0 in LINE_SEEN. */
  lemma UppercaseSeenReadOnlyInRows(co: Coercion)
    requires IsJsCoercion(co)
    ensures var r: Record := map["SEEN" := Number(5.0)];
            && ProjectRow(r, co).seen == Finite(5.0)
            && LineSeen([r], [], co) == [Finite(0.0)]
  {
    var r: Record := map["SEEN" := Number(5.0)];
    assert !Defined(r, SeenKeys[0]) && !Defined(r, SeenKeys[1]) && Defined(r, SeenKeys[2]);
    assert Coalesce(r, SeenKeys, Zero) == Number(5.0);
    assert !Defined(r, LineSeenKeys[0]) && !Defined(r, LineSeenKeys[1]) && !Defined(r, LineSeenKeys[2]);
    var line := LineSeen([r], [], co);
    assert line[0] == co.toNumber(Coalesce(r, LineSeenKeys, Zero));
    assert Coalesce(r, LineSeenKeys, Zero) == Zero;
    assert line == [Finite(0.0)];
  }
}
