/** The success receipt's formatting: the donated amount with thousands separators, the
    instrument-specific transaction row, and the empty-input guard of the date. */
module Receipt {
  import opened Wrappers
  import opened Strings

  // ---------------------------------------------------------------------------------------
  // formatAmount(amount / 100)
  // ---------------------------------------------------------------------------------------

  /** Two-digit, zero-padded text of `n < 100`. */
  function TwoDigits(n: nat): (r: string)
    requires n < 100
    ensures |r| == 2 && AllDigits(r) && DecimalValue(r) == n
  {
    var r := [DigitChar(n / 10), DigitChar(n % 10)];
    assert r[..1] == [r[0]] && r[..1][..0] == [];
    assert DecimalValue(r[..1]) == n / 10;
    assert DecimalValue(r) == 10 * (n / 10) + n % 10;
    r
  }

  /** `(paise / 100).toFixed(2)` for a non-negative whole number of paise: the rupees, a
      point, and the paise within the rupee as two digits. */
  function ToFixed2(paise: nat): string {
    NatToDecimal(paise / 100) + "." + TwoDigits(paise % 100)
  }

  /** `\w`: ASCII letters, digits and '_' */
  predicate IsWordChar(c: char) {
    ('a' <= c <= 'z') || ('A' <= c <= 'Z') || IsDigit(c) || c == '_'
  }

  /** `\B` at position `k` of `s`: the characters on either side of `k` are both word
      characters or both not (a missing character counts as not). */
  predicate NotWordBoundary(s: string, k: nat)
    requires k <= |s|
  {
    (k > 0 && IsWordChar(s[k - 1])) == (k < |s| && IsWordChar(s[k]))
  }

  /** `(?=(\d{3})+(?!\d))` at position `k`: a group of three digits follows, and after it
      either no digit follows or, backtracking into one more repetition, the same holds
      again. */
  predicate DigitTriplesToEnd(s: string, k: nat)
    requires k <= |s|
    decreases |s| - k
  {
    && k + 3 <= |s| && IsDigit(s[k]) && IsDigit(s[k + 1]) && IsDigit(s[k + 2])
    && (k + 3 == |s| || !IsDigit(s[k + 3]) || DigitTriplesToEnd(s, k + 3))
  }

  /** The pattern `\B(?=(\d{3})+(?!\d))` matches the empty string at position `k`. */
  predicate SeparatorAt(s: string, k: nat)
    requires k <= |s|
  {
    NotWordBoundary(s, k) && DigitTriplesToEnd(s, k)
  }

  /** `.replace(pattern, ",")` with the global flag, on the positions from `k` on: a comma
      goes in at every position where the pattern matches, every character is kept. */
  function InsertSeparatorsFrom(s: string, k: nat): string
    requires k <= |s|
    decreases |s| - k
  {
    (if SeparatorAt(s, k) then "," else "")
    + (if k == |s| then "" else [s[k]] + InsertSeparatorsFrom(s, k + 1))
  }

  /** `formatAmount(amount / 100)`, with `amount` in paise. */
  function FormatAmount(paise: nat): string {
    InsertSeparatorsFrom(ToFixed2(paise), 0)
  }

  /** Western grouping, defined independently from the right: the last three digits form a
      group, and what precedes them is grouped the same way. */
  function GroupThousands(d: string): string
    decreases |d|
  {
    if |d| <= 3 then d else GroupThousands(d[..|d| - 3]) + "," + d[|d| - 3..]
  }

  /** A first group of one to three digits, then any number of ",ddd" groups. */
  predicate WellGrouped(t: string)
    decreases |t|
  {
    if |t| <= 3 then 1 <= |t| && AllDigits(t)
    else |t| >= 5 && t[|t| - 4] == ',' && AllDigits(t[|t| - 3..]) && WellGrouped(t[..|t| - 4])
  }

  /** The string with every comma deleted. */
  function RemoveCommas(s: string): string {
    if s == [] then [] else (if s[0] == ',' then [] else [s[0]]) + RemoveCommas(s[1..])
  }

  /** The separator insertion restricted to the integer digits `d`: a comma before position
      `k` when `k > 0` and a multiple of three digits remains. */
  function GroupScan(d: string, k: nat): string
    requires k <= |d|
    decreases |d| - k
  {
    if k == |d| then "" else SepBefore(|d|, k) + [d[k]] + GroupScan(d, k + 1)
  }

  /** The comma the scan puts before position `k` of `n` digits: one when `k > 0` and a
      multiple of three digits remains. */
  function SepBefore(n: nat, k: nat): string
    requires k <= n
  {
    if 0 < k && MultipleOf3(n - k) then "," else ""
  }

  /** `m % 3 == 0`, counted down in steps of three. */
  predicate MultipleOf3(m: nat)
    decreases m
  {
    m == 0 || (m >= 3 && MultipleOf3(m - 3))
  }

  lemma {:induction false} MultipleOf3Mod(m: nat)
    ensures MultipleOf3(m) <==> m % 3 == 0
    decreases m
  {
    if m >= 3 {
      MultipleOf3Mod(m - 3);
    }
  }

  /** Three more digits at the end do not move the separators before `k`. */
  lemma SepBeforeShift(n: nat, k: nat)
    requires k <= n
    ensures SepBefore(n + 3, k) == SepBefore(n, k)
  {
  }

  /** `s` is `toFixed(2)` text with `n` integer digits: the digits, a point and two
      decimals. */
  predicate IsFixed2(s: string, n: nat) {
    && |s| == n + 3 && n >= 1
    && (forall i :: 0 <= i < n ==> IsDigit(s[i]))
    && s[n] == '.' && IsDigit(s[n + 1]) && IsDigit(s[n + 2])
  }

  /** On `toFixed(2)` text, groups of three digits followed by a non-digit start exactly
      inside the integer digits, where a multiple of three digits remains to the point. */
  lemma {:induction false} TriplesOnFixed(s: string, n: nat, k: nat)
    requires IsFixed2(s, n) && k <= n + 3
    ensures DigitTriplesToEnd(s, k) <==> k < n && MultipleOf3(n - k)
    decreases n + 3 - k
  {
    if k + 3 < n {
      TriplesOnFixed(s, n, k + 3);
    }
  }

  /** On `toFixed(2)` text, the pattern matches exactly inside the integer digits, before
      every position that leaves a positive multiple of three digits to the point. */
  lemma SeparatorPositions(s: string, n: nat, k: nat)
    requires IsFixed2(s, n) && k <= n + 3
    ensures SeparatorAt(s, k) <==> 0 < k < n && MultipleOf3(n - k)
  {
    TriplesOnFixed(s, n, k);
  }

  /** Scanning `toFixed(2)` text from a position inside the integer digits gives the
      grouped digits from there on, then the point and the two decimals unchanged. */
  lemma {:induction false} InsertSeparatorsOnFixed(s: string, n: nat, k: nat)
    requires IsFixed2(s, n) && k <= n
    ensures InsertSeparatorsFrom(s, k) == GroupScan(s[..n], k) + s[n..]
    decreases n - k
  {
    if k < n {
      InsertSeparatorsOnFixed(s, n, k + 1);
      InsertSeparatorsStep(s, n, k);
    } else {
      InsertSeparatorsAfterPoint(s, n);
    }
  }

  /** One step of the scan inside the integer digits emits what the digit scan emits. */
  lemma InsertSeparatorsStep(s: string, n: nat, k: nat)
    requires IsFixed2(s, n) && k < n
    requires InsertSeparatorsFrom(s, k + 1) == GroupScan(s[..n], k + 1) + s[n..]
    ensures InsertSeparatorsFrom(s, k) == GroupScan(s[..n], k) + s[n..]
  {
    var d := s[..n];
    SeparatorText(s, n, k);
    assert d[k] == s[k];
    var sep, c, scanned, tail := SepBefore(n, k), [s[k]], GroupScan(d, k + 1), s[n..];
    assert InsertSeparatorsFrom(s, k) == sep + (c + (scanned + tail));
    assert GroupScan(d, k) == (sep + c) + scanned;
    ConcatAssoc(c, scanned, tail);
    ConcatAssoc(sep, c + scanned, tail);
    ConcatAssoc(sep, c, scanned);
  }

  /** Inside the integer digits, the text the pattern inserts is the digit scan's
      separator. */
  lemma SeparatorText(s: string, n: nat, k: nat)
    requires IsFixed2(s, n) && k < n
    ensures (if SeparatorAt(s, k) then "," else "") == SepBefore(n, k)
  {
    SeparatorPositions(s, n, k);
  }

  /** From the point on, nothing is inserted: the point and the two decimals come out as
      they are. */
  lemma InsertSeparatorsAfterPoint(s: string, n: nat)
    requires IsFixed2(s, n)
    ensures InsertSeparatorsFrom(s, n) == s[n..]
  {
    assert IsDigit(s[n - 1]);
    assert !SeparatorAt(s, n) && !SeparatorAt(s, n + 1) && !SeparatorAt(s, n + 2) && !SeparatorAt(s, n + 3);
    assert InsertSeparatorsFrom(s, n + 3) == [];
    assert InsertSeparatorsFrom(s, n + 2) == s[n + 2..];
    assert InsertSeparatorsFrom(s, n + 1) == s[n + 1..];
  }

  /** With fewer than three digits left, no comma goes in. */
  lemma {:induction false} GroupScanShortTail(d: string, k: nat)
    requires k <= |d| && (|d| - k < 3 || |d| <= 3)
    ensures GroupScan(d, k) == d[k..]
    decreases |d| - k
  {
    if k < |d| {
      GroupScanShortTail(d, k + 1);
      assert d[k..] == [d[k]] + d[k + 1..];
    }
  }

  /** Scanning all but the last three digits and then those three separately. */
  lemma {:induction false} GroupScanSplitLastGroup(d: string, k: nat)
    requires |d| > 3 && k <= |d| - 3
    ensures GroupScan(d, k) == GroupScan(d[..|d| - 3], k) + "," + d[|d| - 3..]
    decreases |d| - 3 - k
  {
    var front, back := d[..|d| - 3], d[|d| - 3..];
    if k < |d| - 3 {
      GroupScanSplitLastGroup(d, k + 1);
      GroupScanStep(d, front, k);
    } else {
      GroupScanLastGroup(d);
    }
  }

  /** The inductive step of `GroupScanSplitLastGroup`: before the last group, both scans
      emit the same separator and character at `k`. */
  lemma GroupScanStep(d: string, front: string, k: nat)
    requires |d| > 3 && front == d[..|d| - 3] && k < |front|
    requires GroupScan(d, k + 1) == GroupScan(front, k + 1) + "," + d[|d| - 3..]
    ensures GroupScan(d, k) == GroupScan(front, k) + "," + d[|d| - 3..]
  {
    SepBeforeShift(|front|, k);
    assert front[k] == d[k];
    var head := SepBefore(|d|, k) + [d[k]];
    var rest, back := GroupScan(front, k + 1), d[|d| - 3..];
    assert GroupScan(front, k) == head + rest;
    assert GroupScan(d, k) == head + ((rest + ",") + back);
    ConcatAssoc(head, rest + ",", back);
    ConcatAssoc(head, rest, ",");
  }

  /** Concatenation is associative. */
  lemma ConcatAssoc<T>(a: seq<T>, b: seq<T>, c: seq<T>)
    ensures a + (b + c) == (a + b) + c
  {
  }

  /** The scan from the start of the last group of three: one comma, then the group. */
  lemma GroupScanLastGroup(d: string)
    requires |d| > 3
    ensures GroupScan(d, |d| - 3) == "," + d[|d| - 3..]
  {
    var k := |d| - 3;
    var tail := d[k + 1..];
    GroupScanShortTail(d, k + 1);
    SepBeforeLast(|d|);
    GroupScanUnfold(d, k);
    assert d[k..] == [d[k]] + tail;
  }

  /** One step of the digit scan. */
  lemma GroupScanUnfold(d: string, k: nat)
    requires k < |d|
    ensures GroupScan(d, k) == SepBefore(|d|, k) + ([d[k]] + GroupScan(d, k + 1))
  {
  }

  /** A comma goes in before the last group of three when digits precede it. */
  lemma SepBeforeLast(n: nat)
    requires n > 3
    ensures SepBefore(n, n - 3) == ","
  {
  }

  /** The left-to-right scan and the right-recursive grouping agree. */
  lemma {:induction false} GroupScanIsGroupThousands(d: string)
    ensures GroupScan(d, 0) == GroupThousands(d)
    decreases |d|
  {
    if |d| <= 3 {
      GroupScanShortTail(d, 0);
    } else {
      GroupScanSplitLastGroup(d, 0);
      GroupScanIsGroupThousands(d[..|d| - 3]);
    }
  }

  /** `formatAmount(amount / 100)` is the rupees grouped in threes from the right, a point,
      and the two-digit paise. */
  lemma FormatAmountIsGrouped(paise: nat)
    ensures FormatAmount(paise) == GroupThousands(NatToDecimal(paise / 100)) + "." + TwoDigits(paise % 100)
  {
    var d, f := NatToDecimal(paise / 100), TwoDigits(paise % 100);
    var s := ToFixed2(paise);
    var n := |d|;
    assert s[..n] == d && s[n..] == "." + f;
    assert IsFixed2(s, n) by {
      forall i | 0 <= i < n
        ensures IsDigit(s[i])
      {
        assert s[i] == d[i];
      }
    }
    InsertSeparatorsOnFixed(s, n, 0);
    GroupScanIsGroupThousands(d);
    ConcatAssoc(GroupThousands(d), ".", f);
  }

  lemma {:induction false} RemoveCommasAppend(a: string, b: string)
    ensures RemoveCommas(a + b) == RemoveCommas(a) + RemoveCommas(b)
    decreases |a|
  {
    if a != [] {
      var c, rest := a[0], a[1..];
      RemoveCommasAppend(rest, b);
      assert a == [c] + rest && a + b == [c] + (rest + b);
      RemoveCommasCons(c, rest + b);
      RemoveCommasCons(c, rest);
    } else {
      assert a + b == b;
    }
  }

  lemma {:induction false} RemoveCommasOfDigits(d: string)
    requires AllDigits(d)
    ensures RemoveCommas(d) == d
    decreases |d|
  {
    if d != [] {
      RemoveCommasOfDigits(d[1..]);
    }
  }

  /** Grouping only inserts commas: deleting them gives the digits back. */
  lemma {:induction false} GroupThousandsRemoveCommas(d: string)
    requires AllDigits(d)
    ensures RemoveCommas(GroupThousands(d)) == d
    decreases |d|
  {
    if |d| <= 3 {
      RemoveCommasOfDigits(d);
    } else {
      var front, back := d[..|d| - 3], d[|d| - 3..];
      GroupThousandsRemoveCommas(front);
      RemoveCommasAroundGroup(GroupThousands(front), back);
      assert d == front + back;
    }
  }

  /** Deleting the commas from `g`, a separator and a group of digits deletes them from `g`
      alone and keeps the group. */
  lemma RemoveCommasAroundGroup(g: string, back: string)
    requires AllDigits(back)
    ensures RemoveCommas(g + "," + back) == RemoveCommas(g) + back
  {
    var rest := [','] + back;
    assert g + "," + back == g + rest;
    RemoveCommasAppend(g, rest);
    RemoveCommasCons(',', back);
    RemoveCommasOfDigits(back);
  }

  lemma RemoveCommasCons(c: char, s: string)
    ensures RemoveCommas([c] + s) == (if c == ',' then [] else [c]) + RemoveCommas(s)
  {
    assert ([c] + s)[1..] == s;
  }

  /** Deleting the commas from the formatted amount gives the rupees in decimal, a point and
      the paise as two digits, and those read back as the amount in paise. */
  lemma FormatAmountRemoveCommas(paise: nat)
    ensures RemoveCommas(FormatAmount(paise)) == NatToDecimal(paise / 100) + "." + TwoDigits(paise % 100)
    ensures var r := RemoveCommas(FormatAmount(paise));
      && AllDigits(r[..|r| - 3]) && AllDigits(r[|r| - 2..])
      && 100 * DecimalValue(r[..|r| - 3]) + DecimalValue(r[|r| - 2..]) == paise
  {
    var d, f := NatToDecimal(paise / 100), TwoDigits(paise % 100);
    var g, tail := GroupThousands(d), "." + f;
    FormatAmountIsGrouped(paise);
    ConcatAssoc(g, ".", f);
    RemoveCommasAppend(g, tail);
    RemoveCommasCons('.', f);
    RemoveCommasOfDigits(f);
    GroupThousandsRemoveCommas(d);
    ConcatAssoc(d, ".", f);
    FixedParts(d, f);
    DecimalRoundTrip(paise / 100);
  }

  /** The integer part and the decimals of `d + "." + f` when `f` has two characters. */
  lemma FixedParts(d: string, f: string)
    requires |f| == 2
    ensures var r := d + "." + f; r[..|r| - 3] == d && r[|r| - 2..] == f
  {
  }

  /** The right-recursive grouping of a non-empty digit string is well grouped. */
  lemma {:induction false} GroupThousandsWellGrouped(d: string)
    requires |d| >= 1 && AllDigits(d)
    ensures WellGrouped(GroupThousands(d))
    decreases |d|
  {
    if |d| > 3 {
      var front, back := d[..|d| - 3], d[|d| - 3..];
      GroupThousandsWellGrouped(front);
      var t := GroupThousands(d);
      var g := GroupThousands(front);
      assert t == g + "," + back;
      assert t[..|t| - 4] == g && t[|t| - 3..] == back;
      assert |g| >= 1;
    }
  }

  /** Well-grouped text begins with a digit, never with a comma. */
  lemma {:induction false} WellGroupedStartsWithDigit(t: string)
    requires WellGrouped(t)
    ensures |t| >= 1 && IsDigit(t[0])
    decreases |t|
  {
    if |t| > 3 {
      WellGroupedStartsWithDigit(t[..|t| - 4]);
    }
  }

  /** Grouping puts in a comma exactly when there are more than three digits. */
  lemma {:induction false} GroupThousandsHasComma(d: string)
    requires AllDigits(d)
    ensures ',' in GroupThousands(d) <==> |d| > 3
  {
    if |d| <= 3 {
      assert forall i :: 0 <= i < |d| ==> d[i] != ',';
    } else {
      var t := GroupThousands(d);
      assert t[|t| - 4] == ',';
    }
  }

  /** The shape of the receipt amount: well-grouped rupees, then a point and exactly two
      digits at the end; the only point is that one, so no comma follows it. */
  lemma FormatAmountShape(paise: nat)
    ensures var r := FormatAmount(paise);
      && |r| >= 4 && r[0] != ','
      && WellGrouped(r[..|r| - 3])
      && r[|r| - 3] == '.' && IsDigit(r[|r| - 2]) && IsDigit(r[|r| - 1])
      && (forall k :: 0 <= k < |r| && r[k] == '.' ==> k == |r| - 3)
  {
    var d, f := NatToDecimal(paise / 100), TwoDigits(paise % 100);
    FormatAmountIsGrouped(paise);
    GroupThousandsWellGrouped(d);
    var g := GroupThousands(d);
    WellGroupedStartsWithDigit(g);
    WellGroupedDigitsAndCommas(g);
    var r := FormatAmount(paise);
    assert r == g + "." + f;
    assert r[..|r| - 3] == g;
    forall k | 0 <= k < |r| && k != |r| - 3
      ensures r[k] != '.'
    {
      if k < |g| {
        assert r[k] == g[k];
      } else {
        assert r[k] == f[k - |g| - 1];
      }
    }
  }

  /** Well-grouped text holds only digits and commas. */
  lemma {:induction false} WellGroupedDigitsAndCommas(t: string)
    requires WellGrouped(t)
    ensures forall i :: 0 <= i < |t| ==> IsDigit(t[i]) || t[i] == ','
    decreases |t|
  {
    if |t| > 3 {
      WellGroupedDigitsAndCommas(t[..|t| - 4]);
      forall i | 0 <= i < |t|
        ensures IsDigit(t[i]) || t[i] == ','
      {
        if i < |t| - 4 {
          assert t[i] == t[..|t| - 4][i];
        } else if i > |t| - 4 {
          assert t[i] == t[|t| - 3..][i - (|t| - 3)];
        }
      }
    }
  }

  /** A separator appears exactly from 1000 rupees (100000 paise) on: integer parts of at
      most three digits are left as they are. */
  lemma FormatAmountCommaIff(paise: nat)
    ensures ',' in FormatAmount(paise) <==> paise >= 100000
  {
    var d, f := NatToDecimal(paise / 100), TwoDigits(paise % 100);
    FormatAmountIsGrouped(paise);
    GroupThousandsHasComma(d);
    DecimalLength(paise / 100, 3);
    assert Pow10(3) == 1000;
    var r := FormatAmount(paise);
    assert r == GroupThousands(d) + ("." + f);
    assert ',' !in "." + f;
  }

  // ---------------------------------------------------------------------------------------
  // The transaction row
  // ---------------------------------------------------------------------------------------

  /** The instrument fields the receipt can show. */
  datatype InstrumentField = Utr | CardType

  /** An entry of the `TransactionNumber` table. */
  datatype RowSpec = RowSpec(heading: string, field: InstrumentField)

  /** `paymentInstrument` as the receipt receives it; absent fields are None. */
  datatype PaymentInstrument = PaymentInstrument(kind: string, utr: Option<string>, cardType: Option<string>) {
    function Get(f: InstrumentField): Option<string> {
      match f
      case Utr => utr
      case CardType => cardType
    }
  }

  /** A row of the receipt's details grid: its heading and its value (None renders nothing). */
  datatype Row = Row(heading: string, value: Option<string>)

  const TransactionNumber: map<string, RowSpec> :=
    map["UPI" := RowSpec("UTR Number", Utr), "CARD" := RowSpec("Card Type", CardType)]

  /** `s.replace("_", " ")`: a string pattern, so only the first '_' becomes a space. */
  function ReplaceFirstUnderscore(s: string): (r: string)
    ensures |r| == |s|
    ensures forall k :: 0 <= k < |s| ==>
      r[k] == if s[k] == '_' && '_' !in s[..k] then ' ' else s[k]
  {
    if s == [] then []
    else if s[0] == '_' then " " + s[1..]
    else
      var rest := ReplaceFirstUnderscore(s[1..]);
      assert forall k :: 1 <= k < |s| ==> s[1..][..k - 1] == s[1..k];
      [s[0]] + rest
  }

  /** The extra row under the payment method: present only for an instrument type the table
      lists, labelled from the table, showing the named field with its first '_' replaced. */
  function TransactionRow(pi: PaymentInstrument): (row: Option<Row>)
    ensures row.Some? <==> pi.kind == "UPI" || pi.kind == "CARD"
    ensures pi.kind == "UPI" ==> row.value.heading == "UTR Number"
    ensures pi.kind == "CARD" ==> row.value.heading == "Card Type"
  {
    if pi.kind in TransactionNumber then
      var spec := TransactionNumber[pi.kind];
      var v := pi.Get(spec.field);
      Some(Row(spec.heading, if v.Some? then Some(ReplaceFirstUnderscore(v.value)) else None))
    else None
  }

  /** The UPI row shows the UTR and the card row the card type, each with only its first
      underscore turned into a space; other types, such as "NETBANKING", get no row. */
  lemma TransactionRowValues(pi: PaymentInstrument)
    ensures pi.kind == "UPI" ==>
      TransactionRow(pi).value.value == (if pi.utr.Some? then Some(ReplaceFirstUnderscore(pi.utr.value)) else None)
    ensures pi.kind == "CARD" ==>
      TransactionRow(pi).value.value == (if pi.cardType.Some? then Some(ReplaceFirstUnderscore(pi.cardType.value)) else None)
    ensures pi.kind == "NETBANKING" ==> TransactionRow(pi) == None
  {
  }

  /** Underscores after the first one are kept, and a value with no underscore is shown
      as it is. */
  lemma ReplaceFirstUnderscoreKeepsLater(s: string)
    ensures '_' !in s ==> ReplaceFirstUnderscore(s) == s
    ensures forall i, j :: 0 <= i < j < |s| && s[i] == '_' && s[j] == '_' ==> ReplaceFirstUnderscore(s)[j] == '_'
  {
    var r := ReplaceFirstUnderscore(s);
    forall i, j | 0 <= i < j < |s| && s[i] == '_' && s[j] == '_'
      ensures r[j] == '_'
    {
      assert s[..j][i] == '_';
    }
  }

  // ---------------------------------------------------------------------------------------
  // formatDate
  // ---------------------------------------------------------------------------------------

  /** `formatDate(createdAt)`: "" for a missing or empty timestamp; otherwise whatever the
      `Intl.DateTimeFormat` call, passed in as `intlFormat`, makes of it. */
  function FormatDate(createdAt: Option<string>, intlFormat: string -> string): (r: string)
    ensures createdAt == None || createdAt == Some("") ==> r == ""
    ensures createdAt.Some? && createdAt.value != "" ==> r == intlFormat(createdAt.value)
  {
    if createdAt == None || createdAt.value == "" then "" else intlFormat(createdAt.value)
  }
}
