/** The post-processing of `extractBudgetData` (presupuestos/services/geminiService.ts):
    everything the service does around the model call. The call itself is an
    abstract parameter that maps the request's image part to the model's reply. */
module GeminiService {
  import opened Wrappers
  import opened Types
  import opened JsText

  // ---------------------------------------------------------------------------
  // The request: the payload of the data URL
  // ---------------------------------------------------------------------------

  /** The inline image part of the request. `data` is `undefined` when the
      captured string has no comma. */
  datatype ImagePart = ImagePart(mimeType: string, data: Option<string>)

  /** `dataUrl.split(',')[1]`: the second comma-separated segment, if any. */
  function Payload(dataUrl: string): (p: Option<string>)
    ensures p.None? <==> ',' !in dataUrl
    ensures p.Some? ==> ',' !in p.value
  {
    SplitSingleSegment(dataUrl, ',');
    var parts := Split(dataUrl, ',');
    if |parts| >= 2 then Some(parts[1]) else None
  }

  /** The image part sent with the prompt for a captured data URL. */
  function RequestPart(base64Image: string): (part: ImagePart)
    ensures part.mimeType == "image/jpeg"
    ensures part.data == Payload(base64Image)
    ensures part.data.Some? <==> ',' in base64Image
  {
    ImagePart("image/jpeg", Payload(base64Image))
  }

  /** For a data URL `data:<mediatype>;base64,<data>` (section 3 of RFC 2397)
      whose header and base64 data hold no comma, the payload sent is the data. */
  lemma PayloadOfDataUrl(header: string, data: string)
    requires ',' !in header && ',' !in data
    ensures Payload(header + "," + data) == Some(data)
  {
    SplitJoin([header, data], ',');
    assert Join([header, data], ',') == header + "," + data;
  }

  /** In general the payload is the text after the first comma up to the next
      comma or the end, and there is none exactly when there is no comma. */
  lemma PayloadIsSecondSegment(dataUrl: string)
    ensures Payload(dataUrl).None? <==> ',' !in dataUrl
    ensures Payload(dataUrl).Some? ==>
      var head, p := Split(dataUrl, ',')[0], Payload(dataUrl).value;
      && ',' !in head && ',' !in p
      && |head| + 1 + |p| <= |dataUrl|
      && dataUrl[..|head| + 1] == head + ","
      && dataUrl[|head| + 1..|head| + 1 + |p|] == p
      && (|head| + 1 + |p| == |dataUrl| || dataUrl[|head| + 1 + |p|] == ',')
  {
    JoinSplit(dataUrl, ',');
    var parts := Split(dataUrl, ',');
    if |parts| >= 2 {
      var head, p := parts[0], parts[1];
      assert parts[1..][0] == p;
      var tail: string;
      if |parts| == 2 {
        tail := "";
        assert Join(parts[1..], ',') == p;
      } else {
        tail := [','] + Join(parts[2..], ',');
        assert parts[1..][1..] == parts[2..];
        assert Join(parts[1..], ',') == p + tail;
      }
      assert dataUrl == head + [','] + p + tail;
      SegmentAt(dataUrl, head, p, tail, ',');
    }
  }

  /** Where the segment `p` sits in `head + [sep] + p + tail`. */
  lemma SegmentAt(u: string, head: string, p: string, tail: string, sep: char)
    requires u == head + [sep] + p + tail
    requires tail == [] || tail[0] == sep
    ensures |head| + 1 + |p| <= |u|
    ensures u[..|head| + 1] == head + [sep]
    ensures u[|head| + 1..|head| + 1 + |p|] == p
    ensures |head| + 1 + |p| == |u| || u[|head| + 1 + |p|] == sep
  {
    assert u[..|head| + 1] == head + [sep];
    assert u[|head| + 1..|head| + 1 + |p|] == p;
  }

  // ---------------------------------------------------------------------------
  // The reply
  // ---------------------------------------------------------------------------

  /** The parsed JSON object the model returns. The response schema requires
      `client`, `date` and `lines`; `lines` is absent in the object `{}` that an
      empty response text parses to. */
  datatype RawBudget = RawBudget(
    client: string,
    date: string,
    lines: Option<seq<BudgetLine>>,
    notes: Option<string>)

  /** What awaiting `generateContent` and parsing `response.text` gives. */
  datatype Reply =
    | CallRejected       // the request promise rejects
    | Unparseable        // `JSON.parse` throws on the text
    | EmptyText          // no text: `'{}'` is parsed instead
    | Parsed(raw: RawBudget)

  /** Why `extractBudgetData` rejects. */
  datatype ExtractError = RequestFailed | InvalidJson | MissingLines

  // ---------------------------------------------------------------------------
  // The ordering rule
  // ---------------------------------------------------------------------------

  /** A line "has numbers" when it carries a positive quantity or a positive price. */
  predicate HasNumbers(line: BudgetLine)
  {
    (line.units.Some? && line.units.value > 0.0)
      || (line.unitPrice.Some? && line.unitPrice.value > 0.0)
  }

  /** The comparator passed to `sort`. */
  function Compare(a: BudgetLine, b: BudgetLine): (c: int)
    ensures c < 0 <==> !HasNumbers(a) && HasNumbers(b)
    ensures c > 0 <==> HasNumbers(a) && !HasNumbers(b)
    ensures c == 0 <==> HasNumbers(a) == HasNumbers(b)
  {
    if !HasNumbers(a) && HasNumbers(b) then -1
    else if HasNumbers(a) && !HasNumbers(b) then 1
    else 0
  }

  /** Compare is a consistent comparator in the sense of section 23.1.3.30.2
      of ECMA-262 (2023): antisymmetric in sign and transitive. */
  lemma CompareIsConsistent(a: BudgetLine, b: BudgetLine, c: BudgetLine)
    ensures Compare(a, b) == -Compare(b, a)
    ensures Compare(a, b) <= 0 && Compare(b, c) <= 0 ==> Compare(a, c) <= 0
    ensures Compare(a, b) == 0 && Compare(b, c) == 0 ==> Compare(a, c) == 0
  {
  }

  /** `r` is in ascending order according to Compare. */
  ghost predicate SortedByCompare(r: seq<BudgetLine>)
  {
    forall i, j :: 0 <= i < j < |r| ==> Compare(r[i], r[j]) <= 0
  }

  /** The lines of `s` whose HasNumbers is `numbered`, in their order in `s`. */
  function Group(s: seq<BudgetLine>, numbered: bool): (g: seq<BudgetLine>)
    ensures |g| <= |s|
    ensures forall i :: 0 <= i < |g| ==> HasNumbers(g[i]) == numbered
    ensures forall x :: x in g ==> x in s
    decreases |s|
  {
    if s == [] then []
    else (if HasNumbers(s[0]) == numbered then [s[0]] else []) + Group(s[1..], numbered)
  }

  /** `[...lines].sort(Compare)`. A stable sort (ECMA-262, 2023, section 23.1.3.30)
      under this two-class comparator has exactly one possible result: the lines
      without numbers, then the lines with numbers, each group in input order.
      SortLinesUnique proves that no other arrangement qualifies. */
  function SortLines(lines: seq<BudgetLine>): (r: seq<BudgetLine>)
    ensures multiset(r) == multiset(lines)
    ensures |r| == |lines|
  {
    GroupMultiset(lines);
    var r := Group(lines, false) + Group(lines, true);
    assert |multiset(r)| == |multiset(lines)|;
    r
  }

  lemma {:induction false} GroupConcat(a: seq<BudgetLine>, b: seq<BudgetLine>, numbered: bool)
    ensures Group(a + b, numbered) == Group(a, numbered) + Group(b, numbered)
    decreases |a|
  {
    if a == [] {
      assert a + b == b;
    } else {
      assert (a + b)[0] == a[0];
      assert (a + b)[1..] == a[1..] + b;
      GroupConcat(a[1..], b, numbered);
    }
  }

  lemma {:induction false} GroupMultiset(s: seq<BudgetLine>)
    ensures multiset(Group(s, false)) + multiset(Group(s, true)) == multiset(s)
    decreases |s|
  {
    if s != [] {
      GroupMultiset(s[1..]);
      assert s == [s[0]] + s[1..];
    }
  }

  /** Grouping a group again keeps it whole; grouping it by the other class empties it. */
  lemma {:induction false} GroupOfGroup(s: seq<BudgetLine>, numbered: bool)
    ensures Group(Group(s, numbered), numbered) == Group(s, numbered)
    ensures Group(Group(s, numbered), !numbered) == []
    decreases |s|
  {
    if s != [] {
      GroupOfGroup(s[1..], numbered);
      var head: seq<BudgetLine> := if HasNumbers(s[0]) == numbered then [s[0]] else [];
      GroupConcat(head, Group(s[1..], numbered), numbered);
      GroupConcat(head, Group(s[1..], numbered), !numbered);
      if head != [] { assert head[1..] == []; }
    }
  }

  /** The sorted lines come in two blocks: no line with numbers precedes one without. */
  lemma SortLinesSorted(lines: seq<BudgetLine>)
    ensures SortedByCompare(SortLines(lines))
    ensures forall i, j :: 0 <= i < j < |SortLines(lines)| && HasNumbers(SortLines(lines)[i])
              ==> HasNumbers(SortLines(lines)[j])
  {
    var r, k := SortLines(lines), |Group(lines, false)|;
    forall i, j | 0 <= i < j < |r| ensures Compare(r[i], r[j]) <= 0 {
      if i < k { assert r[i] == Group(lines, false)[i]; }
      if j >= k { assert r[j] == Group(lines, true)[j - k]; }
      if i >= k { assert r[i] == Group(lines, true)[i - k]; }
    }
  }

  /** Stability: within each group the lines keep their input order. */
  lemma SortLinesStable(lines: seq<BudgetLine>)
    ensures Group(SortLines(lines), false) == Group(lines, false)
    ensures Group(SortLines(lines), true) == Group(lines, true)
  {
    GroupConcat(Group(lines, false), Group(lines, true), false);
    GroupConcat(Group(lines, false), Group(lines, true), true);
    GroupOfGroup(lines, false);
    GroupOfGroup(lines, true);
    assert Group(lines, false) + [] == Group(lines, false);
  }

  /** The tail of a sorted list is sorted. */
  lemma SortedTail(r: seq<BudgetLine>)
    requires r != [] && SortedByCompare(r)
    ensures SortedByCompare(r[1..])
  {
    var t := r[1..];
    forall i, j | 0 <= i < j < |t| ensures Compare(t[i], t[j]) <= 0 {
      assert t[i] == r[i + 1] && t[j] == r[j + 1];
    }
  }

  /** In a sorted list, everything after a line with numbers has numbers. */
  lemma SortedAfterNumbered(r: seq<BudgetLine>)
    requires r != [] && SortedByCompare(r) && HasNumbers(r[0])
    ensures forall j :: 0 <= j < |r[1..]| ==> HasNumbers(r[1..][j])
  {
    forall j | 0 <= j < |r[1..]| ensures HasNumbers(r[1..][j]) {
      assert Compare(r[0], r[j + 1]) <= 0;
    }
  }

  /** A list sorted by Compare is its unnumbered group followed by its numbered group. */
  lemma {:induction false} SortedIsGrouped(r: seq<BudgetLine>)
    requires SortedByCompare(r)
    ensures r == Group(r, false) + Group(r, true)
    decreases |r|
  {
    if r != [] {
      var t := r[1..];
      assert r == [r[0]] + t;
      if HasNumbers(r[0]) {
        SortedAfterNumbered(r);
        AllNumberedGroups(t);
      } else {
        SortedTail(r);
        SortedIsGrouped(t);
      }
    }
  }

  lemma {:induction false} AllNumberedGroups(t: seq<BudgetLine>)
    requires forall j :: 0 <= j < |t| ==> HasNumbers(t[j])
    ensures Group(t, false) == [] && Group(t, true) == t
    decreases |t|
  {
    if t != [] {
      AllNumberedGroups(t[1..]);
      assert [t[0]] + t[1..] == t;
    }
  }

  /** The stable sort is determined: any arrangement that is sorted by Compare
      and keeps each group in input order is SortLines. */
  lemma SortLinesUnique(lines: seq<BudgetLine>, r: seq<BudgetLine>)
    requires SortedByCompare(r)
    requires Group(r, false) == Group(lines, false)
    requires Group(r, true) == Group(lines, true)
    ensures r == SortLines(lines)
  {
    SortedIsGrouped(r);
  }

  // ---------------------------------------------------------------------------
  // Line totals and the subtotal
  // ---------------------------------------------------------------------------

  /** `x || 0` on an optional number: an absent value counts as 0. */
  function OrZero(x: Option<real>): (r: real)
    ensures x.None? ==> r == 0.0
    ensures x.Some? ==> r == x.value
  {
    x.GetOr(0.0)
  }

  /** `{ ...line, totalPrice }`: every field kept, `totalPrice` set to units times price. */
  function WithTotal(line: BudgetLine): (r: BudgetLine)
    ensures r.description == line.description
    ensures r.units == line.units && r.unitPrice == line.unitPrice
    ensures r.totalPrice.Some?
    ensures line.units.Some? && line.unitPrice.Some? ==>
              r.totalPrice.value == line.units.value * line.unitPrice.value
    ensures OrZero(line.units) == 0.0 || OrZero(line.unitPrice) == 0.0 ==> r.totalPrice == Some(0.0)
  {
    var units, unitPrice := OrZero(line.units), OrZero(line.unitPrice);
    line.(totalPrice := Some(units * unitPrice))
  }

  /** The line-by-line image of a list under WithTotal. */
  function WithTotals(lines: seq<BudgetLine>): (r: seq<BudgetLine>)
    ensures |r| == |lines|
    ensures forall i :: 0 <= i < |r| ==> r[i] == WithTotal(lines[i])
  {
    seq(|lines|, i requires 0 <= i < |lines| => WithTotal(lines[i]))
  }

  /** The sum of `totalPrice` over a list of lines, taken left to right. */
  function TotalPriceSum(lines: seq<BudgetLine>): real
    decreases |lines|
  {
    if lines == [] then 0.0
    else TotalPriceSum(lines[..|lines| - 1]) + OrZero(lines[|lines| - 1].totalPrice)
  }

  /** The `map` pass: each line gains its total and `subtotal` accumulates them. */
  method ProcessLines(sortedLines: seq<BudgetLine>) returns (processed: seq<BudgetLine>, subtotal: real)
    ensures processed == WithTotals(sortedLines)
    ensures subtotal == TotalPriceSum(processed)
  {
    processed, subtotal := [], 0.0;
    var i := 0;
    while i < |sortedLines|
      invariant 0 <= i <= |sortedLines|
      invariant processed == WithTotals(sortedLines[..i])
      invariant subtotal == TotalPriceSum(processed)
    {
      var line := WithTotal(sortedLines[i]);
      assert (processed + [line])[..|processed|] == processed;
      assert sortedLines[..i + 1] == sortedLines[..i] + [sortedLines[i]];
      processed := processed + [line];
      subtotal := subtotal + line.totalPrice.value;
      i := i + 1;
    }
    assert sortedLines[..i] == sortedLines;
  }

  lemma {:induction false} TotalPriceSumConcat(a: seq<BudgetLine>, b: seq<BudgetLine>)
    ensures TotalPriceSum(a + b) == TotalPriceSum(a) + TotalPriceSum(b)
    decreases |b|
  {
    if b == [] {
      assert a + b == a;
    } else {
      var b' := b[..|b| - 1];
      TotalPriceSumConcat(a, b');
      assert (a + b)[..|a + b| - 1] == a + b';
    }
  }

  lemma WithTotalsConcat(a: seq<BudgetLine>, b: seq<BudgetLine>)
    ensures WithTotals(a + b) == WithTotals(a) + WithTotals(b)
  {
  }

  lemma {:induction false} GroupSubtotals(lines: seq<BudgetLine>)
    ensures TotalPriceSum(WithTotals(Group(lines, false))) + TotalPriceSum(WithTotals(Group(lines, true)))
         == TotalPriceSum(WithTotals(lines))
    decreases |lines|
  {
    if lines != [] {
      var x, t := lines[0], lines[1..];
      GroupSubtotals(t);
      assert lines == [x] + t;
      WithTotalsConcat([x], t);
      TotalPriceSumConcat(WithTotals([x]), WithTotals(t));
      var hf: seq<BudgetLine> := if HasNumbers(x) then [] else [x];
      var ht: seq<BudgetLine> := if HasNumbers(x) then [x] else [];
      assert Group(lines, false) == hf + Group(t, false);
      assert Group(lines, true) == ht + Group(t, true);
      WithTotalsConcat(hf, Group(t, false));
      WithTotalsConcat(ht, Group(t, true));
      TotalPriceSumConcat(WithTotals(hf), WithTotals(Group(t, false)));
      TotalPriceSumConcat(WithTotals(ht), WithTotals(Group(t, true)));
    }
  }

  /** Reordering the lines does not change the subtotal: it equals the sum of
      units times price over the lines in the order the model returned them. */
  lemma SubtotalIgnoresOrder(lines: seq<BudgetLine>)
    ensures TotalPriceSum(WithTotals(SortLines(lines))) == TotalPriceSum(WithTotals(lines))
  {
    WithTotalsConcat(Group(lines, false), Group(lines, true));
    TotalPriceSumConcat(WithTotals(Group(lines, false)), WithTotals(Group(lines, true)));
    GroupSubtotals(lines);
  }

  // ---------------------------------------------------------------------------
  // Taxes and the budget number
  // ---------------------------------------------------------------------------

  /** The IVA rate applied to the subtotal. */
  const IvaRate: real := 0.21

  /** The derived totals of a document agree with its lines. */
  ghost predicate ConsistentTotals(d: BudgetData)
  {
    && d.subtotal == TotalPriceSum(d.lines)
    && d.iva == d.subtotal * IvaRate
    && d.total == d.subtotal + d.iva
  }

  /** Over the reals the total is the subtotal plus 21 per cent. */
  lemma TotalIsSubtotalPlusIva(d: BudgetData)
    requires ConsistentTotals(d)
    ensures d.total == 1.21 * d.subtotal
    ensures d.subtotal >= 0.0 ==> d.iva <= d.total
  {
  }

  /** `Math.floor(Math.random() * 1000)` for a draw `random` in [0, 1). */
  function SequenceNumber(random: real): (n: nat)
    requires 0.0 <= random < 1.0
    ensures n <= 999
    ensures n as real <= random * 1000.0 < n as real + 1.0
  {
    (random * 1000.0).Floor
  }

  /** `n.toString().padStart(3, '0')` for the drawn number `n`: three digits
      that read back as `n`. */
  function SequenceSuffix(random: real): (suffix: string)
    requires 0.0 <= random < 1.0
    ensures |suffix| == 3 && AllDigits(suffix)
    ensures DecimalValue(suffix) == SequenceNumber(random)
  {
    PaddedSequenceNumber(SequenceNumber(random));
    PadStart(NatToString(SequenceNumber(random)), 3, '0')
  }

  /** `SANTI-${year}-${n.toString().padStart(3, '0')}`: `SANTI-`, the year in
      decimal, `-`, and exactly three digits that read back as the drawn number. */
  function BudgetNumber(year: nat, random: real): (bn: string)
    requires 0.0 <= random < 1.0
    ensures var y := NatToString(year);
      && |bn| == 7 + |y| + 3
      && bn[..6] == "SANTI-" && bn[6..6 + |y|] == y && bn[6 + |y|] == '-'
      && AllDigits(y) && DecimalValue(y) == year
      && bn[7 + |y|..] == SequenceSuffix(random)
      && AllDigits(bn[7 + |y|..])
      && DecimalValue(bn[7 + |y|..]) == SequenceNumber(random)
  {
    var y, suffix := NatToString(year), SequenceSuffix(random);
    NatToStringValue(year);
    DashedParts(y, suffix);
    "SANTI-" + y + "-" + suffix
  }

  /** Where the parts of `SANTI-<y>-<suffix>` sit. */
  lemma DashedParts(y: string, suffix: string)
    ensures var bn := "SANTI-" + y + "-" + suffix;
      && |bn| == 7 + |y| + |suffix|
      && bn[..6] == "SANTI-" && bn[6..6 + |y|] == y && bn[6 + |y|] == '-'
      && bn[7 + |y|..] == suffix
  {
    var head := "SANTI-" + y + "-";
    assert head[..6] == "SANTI-" && head[6..6 + |y|] == y;
    assert ("SANTI-" + y + "-" + suffix)[..7 + |y|] == head;
  }

  /** A number below 1000, padded to three digits, reads back as itself. */
  lemma PaddedSequenceNumber(n: nat)
    requires n <= 999
    ensures var suffix := PadStart(NatToString(n), 3, '0');
      |suffix| == 3 && AllDigits(suffix) && DecimalValue(suffix) == n
  {
    var d := NatToString(n);
    NatToStringBelow1000(n);
    NatToStringValue(n);
    assert PadStart(d, 3, '0') == Repeat('0', 3 - |d|) + d;
    LeadingZerosValue(3 - |d|, d);
  }

  // ---------------------------------------------------------------------------
  // extractBudgetData
  // ---------------------------------------------------------------------------

  /** `extractBudgetData(base64Image)`: send the payload, then sort the lines,
      compute the line totals, the subtotal, IVA and total, and draw a budget
      number. The model's reply is `ask` of the image part; `year` stands for
      `new Date().getFullYear()` and `random` for `Math.random()`. */
  method ExtractBudgetData(base64Image: string, ask: ImagePart -> Reply, year: nat, random: real)
    returns (r: Result<BudgetData, ExtractError>)
    requires 0.0 <= random < 1.0
    ensures var reply := ask(RequestPart(base64Image));
      && (r.Success? <==> reply.Parsed? && reply.raw.lines.Some?)
      && (reply.CallRejected? ==> r == Failure(RequestFailed))
      && (reply.Unparseable? ==> r == Failure(InvalidJson))
      && (reply.EmptyText? || (reply.Parsed? && reply.raw.lines.None?) ==> r == Failure(MissingLines))
    ensures r.Success? ==>
      var raw, d := ask(RequestPart(base64Image)).raw, r.value;
      && d.client == raw.client && d.date == raw.date && d.notes == raw.notes
      && d.lines == WithTotals(SortLines(raw.lines.value))
      && ConsistentTotals(d)
      && d.subtotal == TotalPriceSum(WithTotals(raw.lines.value))
      && d.budgetNumber == BudgetNumber(year, random)
  {
    var reply := ask(RequestPart(base64Image));
    match reply {
      case CallRejected =>
        return Failure(RequestFailed);
      case Unparseable =>
        return Failure(InvalidJson);
      case EmptyText =>
        return Failure(MissingLines);
      case Parsed(raw) =>
        if raw.lines.None? {
          return Failure(MissingLines);
        }
        var sortedLines := SortLines(raw.lines.value);
        var processedLines, subtotal := ProcessLines(sortedLines);
        SubtotalIgnoresOrder(raw.lines.value);
        var iva := subtotal * IvaRate;
        var total := subtotal + iva;
        var budgetNumber := BudgetNumber(year, random);
        return Success(BudgetData(budgetNumber, raw.client, raw.date, processedLines,
                                  subtotal, iva, total, raw.notes));
    }
  }

  /** The two-line example: a priced line and an unpriced one. The unpriced line
      comes first, and subtotal, IVA and total are 50, 10.5 and 60.5. */
  lemma TwoLineExample()
    ensures var paint := BudgetLine("PINTAR PARED", Some(10.0), Some(5.0), None);
      var prep := BudgetLine("PREPARACION", None, None, None);
      var out := WithTotals(SortLines([paint, prep]));
      && out == [WithTotal(prep), WithTotal(paint)]
      && out[0].totalPrice == Some(0.0) && out[1].totalPrice == Some(50.0)
      && TotalPriceSum(out) == 50.0
      && TotalPriceSum(out) * IvaRate == 10.5
      && TotalPriceSum(out) + TotalPriceSum(out) * IvaRate == 60.5
  {
    var paint := BudgetLine("PINTAR PARED", Some(10.0), Some(5.0), None);
    var prep := BudgetLine("PREPARACION", None, None, None);
    SortTwoLines(paint, prep);
    var out := WithTotals([prep, paint]);
    assert out == [WithTotal(prep), WithTotal(paint)];
    TotalPriceSumTwo(out[0], out[1]);
  }

  /** A numbered line before an unnumbered one swaps places. */
  lemma SortTwoLines(numbered: BudgetLine, plain: BudgetLine)
    requires HasNumbers(numbered) && !HasNumbers(plain)
    ensures SortLines([numbered, plain]) == [plain, numbered]
  {
    assert [numbered, plain][1..] == [plain];
    assert Group([numbered, plain], false) == [plain];
    assert Group([numbered, plain], true) == [numbered];
  }

  lemma TotalPriceSumTwo(a: BudgetLine, b: BudgetLine)
    ensures TotalPriceSum([a, b]) == OrZero(a.totalPrice) + OrZero(b.totalPrice)
  {
    assert [a, b][..1] == [a] && [a][..0] == [];
    assert TotalPriceSum([a]) == OrZero(a.totalPrice);
    assert TotalPriceSum([a, b]) == TotalPriceSum([a]) + OrZero(b.totalPrice);
  }
}
