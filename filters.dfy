/** The pure helpers of the Flask application: the upload extension check,
    the price and currency template filters, the status toggle table, the
    district/wijk string that listings store and its breadcrumb split, and the
    wijk lookup of the location API. */
module Filters {
  import opened Wrappers
  import opened Chars

  // ---------------------------------------------------------------------
  // allowed_file
  // ---------------------------------------------------------------------

  const AllowedExtensions: set<string> := {"png", "jpg", "jpeg", "webp"}

  /** Index of the last '.' in s, if any. */
  function LastDot(s: string): (r: Option<nat>)
    ensures r.None? <==> forall j :: 0 <= j < |s| ==> s[j] != '.'
    ensures r.Some? ==> r.value < |s| && s[r.value] == '.'
    ensures r.Some? ==> forall j :: r.value < j < |s| ==> s[j] != '.'
  {
    if s == [] then None
    else if s[|s| - 1] == '.' then Some(|s| - 1)
    else LastDot(s[..|s| - 1])
  }

  /** An upload is accepted when its name has a '.' and the text after the
      last '.', lower-cased, is one of the allowed extensions. */
  function AllowedFile(filename: string): bool
  {
    match LastDot(filename)
    case None => false
    case Some(i) => Lower(filename[i + 1..]) in AllowedExtensions
  }

  /** A dot with no dot after it is the last dot. */
  ghost predicate IsLastDot(filename: string, i: nat)
  {
    i < |filename| && filename[i] == '.' && forall j :: i < j < |filename| ==> filename[j] != '.'
  }

  /** Once the last dot is known, the decision is the extension test. */
  lemma AllowedFileAt(filename: string, i: nat)
    requires IsLastDot(filename, i)
    ensures AllowedFile(filename) == (Lower(filename[i + 1..]) in AllowedExtensions)
  {
    var d := LastDot(filename);
    assert filename[i] == '.';
    assert d.Some?;
  }

  /** An upload is accepted exactly when some dot is the last one and the
      lower-cased text after it is an allowed extension. */
  lemma AllowedFileMeaning(filename: string)
    ensures AllowedFile(filename) <==>
      exists i: nat :: IsLastDot(filename, i) && Lower(filename[i + 1..]) in AllowedExtensions
  {
    forall i: nat | IsLastDot(filename, i)
      ensures AllowedFile(filename) == (Lower(filename[i + 1..]) in AllowedExtensions)
    {
      AllowedFileAt(filename, i);
    }
    var d := LastDot(filename);
    if d.Some? {
      assert IsLastDot(filename, d.value);
    }
  }

  /** The extension is compared case-insensitively. */
  lemma AllowedFileUpperCase()
    ensures AllowedFile("a.PNG")
  {
    var png := "a.PNG";
    assert IsLastDot(png, 1);
    AllowedFileAt(png, 1);
    assert png[2..] == "PNG";
    assert Lower("PNG") == "png";
  }

  /** A name without a dot is refused. */
  lemma AllowedFileNeedsDot()
    ensures !AllowedFile("png")
  {
    AllowedFileMeaning("png");
    assert forall i: nat :: !IsLastDot("png", i);
  }

  /** An extension outside the list is refused. */
  lemma AllowedFileRejectsGif()
    ensures !AllowedFile("a.gif")
  {
    var gif := "a.gif";
    assert IsLastDot(gif, 1);
    AllowedFileAt(gif, 1);
    assert gif[2..] == "gif";
    assert Lower("gif") == "gif";
  }

  // ---------------------------------------------------------------------
  // format_price / format_currency
  // ---------------------------------------------------------------------

  /** What reaches the filters: a value int() accepts, or anything else. */
  datatype PriceValue = Number(n: int) | NonNumeric(raw: string)

  /** Inserts '.' between every group of three digits, counted from the right. */
  function Grouped(ds: string): string
  {
    if |ds| <= 3 then ds else Grouped(ds[..|ds| - 3]) + "." + ds[|ds| - 3..]
  }

  /** Python's f"{n:,}" with ',' replaced by '.'. */
  function FormatInt(n: int): string
  {
    (if n < 0 then "-" else "") + Grouped(DecimalDigits(if n < 0 then -n else n))
  }

  /** The "price" template filter. */
  function FormatPrice(v: PriceValue): string
  {
    match v
    case Number(n) => FormatInt(n)
    case NonNumeric(raw) => raw
  }

  /** Drops every '.' from a string. */
  function RemoveDots(s: string): (r: string)
    ensures forall i :: 0 <= i < |r| ==> r[i] != '.'
  {
    if s == [] then []
    else (if s[0] == '.' then [] else [s[0]]) + RemoveDots(s[1..])
  }

  lemma RemoveDotsAppend(a: string, b: string)
    ensures RemoveDots(a + b) == RemoveDots(a) + RemoveDots(b)
  {
    if a != [] {
      var h := if a[0] == '.' then [] else [a[0]];
      assert (a + b)[0] == a[0];
      assert (a + b)[1..] == a[1..] + b;
      RemoveDotsAppend(a[1..], b);
      calc {
        RemoveDots(a + b);
        h + RemoveDots(a[1..] + b);
        h + (RemoveDots(a[1..]) + RemoveDots(b));
        (h + RemoveDots(a[1..])) + RemoveDots(b);
      }
    } else {
      assert a + b == b;
    }
  }

  /** Grouping only inserts dots: dropping them gives the digits back. */
  lemma {:induction false} GroupedRemoveDots(ds: string)
    requires AllDigits(ds)
    ensures RemoveDots(Grouped(ds)) == ds
  {
    if |ds| <= 3 {
      NoDotsUnchanged(ds);
    } else {
      var p, t := ds[..|ds| - 3], ds[|ds| - 3..];
      GroupedRemoveDots(p);
      RemoveDotsAppend(Grouped(p) + ".", t);
      RemoveDotsAppend(Grouped(p), ".");
      NoDotsUnchanged(t);
      assert p + t == ds;
    }
  }

  lemma {:induction false} NoDotsUnchanged(s: string)
    requires AllDigits(s)
    ensures RemoveDots(s) == s
  {
    if s != [] { NoDotsUnchanged(s[1..]); }
  }

  /** In a grouped non-empty digit string the k-th character from the right
      is a '.' exactly when k is 3, 7, 11, ...; the string never starts
      with a '.'. */
  lemma {:induction false} GroupedDotPositions(ds: string, k: nat)
    requires AllDigits(ds) && |ds| >= 1
    requires k < |Grouped(ds)|
    ensures Grouped(ds)[0] != '.'
    ensures Grouped(ds)[|Grouped(ds)| - 1 - k] == '.' <==> k % 4 == 3
  {
    var r := Grouped(ds);
    if |ds| > 3 {
      var p, t := ds[..|ds| - 3], ds[|ds| - 3..];
      var g := Grouped(p);
      assert r == g + "." + t;
      GroupedDotPositions(p, 0);
      if k >= 4 {
        GroupedDotPositions(p, k - 4);
        assert r[|r| - 1 - k] == g[|g| - 1 - (k - 4)];
      } else if k < 3 {
        assert r[|r| - 1 - k] == t[2 - k];
      }
    }
  }

  /** The digits of format_price(n) read back as |n|, and the result starts
      with '-' exactly for negative n. */
  lemma FormatPriceRoundTrip(n: int)
    ensures var s := FormatPrice(Number(n));
            |s| >= 1 && (s[0] == '-' <==> n < 0)
            && var body := if n < 0 then s[1..] else s;
               AllDigits(RemoveDots(body))
               && DigitsValue(RemoveDots(body)) == (if n < 0 then -n else n)
  {
    var m := if n < 0 then -n else n;
    var ds := DecimalDigits(m);
    GroupedRemoveDots(ds);
    GroupedDotPositions(ds, |Grouped(ds)| - 1);
    DigitsRoundTrip(m);
    var s := FormatPrice(Number(n));
    if n < 0 {
      assert s[1..] == Grouped(ds);
    } else {
      assert s == Grouped(ds);
      GroupedHead(ds);
    }
  }

  lemma {:induction false} GroupedHead(ds: string)
    requires |ds| >= 1
    ensures |Grouped(ds)| >= 1 && Grouped(ds)[0] == ds[0]
  {
    if |ds| > 3 { GroupedHead(ds[..|ds| - 3]); }
  }

  /** The symbol format_currency writes in front of the amount. */
  function CurrencySymbol(currency: string): (sym: string)
    ensures Upper(currency) == "EUR" ==> sym == "€"
    ensures Upper(currency) == "USD" ==> sym == "$"
    ensures Upper(currency) == "SRD" ==> sym == "SRD"
    ensures Upper(currency) !in {"EUR", "USD", "SRD"} ==> sym == currency
  {
    var symbols := map["SRD" := "SRD", "USD" := "$", "EUR" := "€"];
    var code := Upper(currency);
    if code == "EUR" then "€"
    else if code == "USD" then "$"
    else if code in symbols then symbols[code] else currency
  }

  /** The "currency" template filter: the same digits as the price filter,
      after the currency's symbol and a space; anything int() rejects comes
      back unchanged. */
  function FormatCurrency(v: PriceValue, currency: string): (r: string)
    ensures v.NonNumeric? ==> r == v.raw
    ensures v.Number? ==> r == CurrencySymbol(currency) + " " + FormatPrice(v)
  {
    match v
    case NonNumeric(raw) => raw
    case Number(n) =>
      var formatted := FormatInt(n);
      var code := Upper(currency);
      if code == "EUR" then "€ " + formatted
      else if code == "USD" then "$ " + formatted
      else (if code == "SRD" then "SRD" else currency) + " " + formatted
  }

  /** The currency code is matched case-insensitively for the known codes. */
  lemma {:induction false} FormatCurrencyCaseInsensitive(v: PriceValue, c1: string, c2: string)
    requires Upper(c1) == Upper(c2) && Upper(c1) in {"EUR", "USD", "SRD"}
    ensures FormatCurrency(v, c1) == FormatCurrency(v, c2)
  {
  }

  // ---------------------------------------------------------------------
  // toggle_status
  // ---------------------------------------------------------------------

  const StatusMap: map<string, string> :=
    map["te koop" := "verkocht", "verkocht" := "te koop",
        "te huur" := "verhuurd", "verhuurd" := "te huur"]

  /** status_map.get(status, status). */
  function ToggleStatus(status: string): (r: string)
    ensures status == "te koop" ==> r == "verkocht"
    ensures status == "verkocht" ==> r == "te koop"
    ensures status == "te huur" ==> r == "verhuurd"
    ensures status == "verhuurd" ==> r == "te huur"
    ensures status !in {"te koop", "verkocht", "te huur", "verhuurd"} ==> r == status
  {
    if status in StatusMap then StatusMap[status] else status
  }

  /** Toggling twice restores the status. */
  lemma ToggleStatusInvolution(status: string)
    ensures ToggleStatus(ToggleStatus(status)) == status
  {
  }

  // ---------------------------------------------------------------------
  // District and wijk
  // ---------------------------------------------------------------------

  const Separator: string := " - "

  /** The district string a new listing stores: "district - wijk" when a
      wijk was given, lower-cased. */
  function ComposeDistrict(district: string, wijk: string): string
  {
    Lower(if wijk != "" then district + Separator + wijk else district)
  }

  /** Python's s.split(" - "): scans left to right, cutting at every
      non-overlapping occurrence of the separator. */
  function SplitDistrict(s: string): (parts: seq<string>)
    ensures |parts| >= 1
    decreases |s|
  {
    if |s| < 3 then [s]
    else if s[..3] == Separator then [""] + SplitDistrict(s[3..])
    else
      var rest := SplitDistrict(s[1..]);
      [[s[0]] + rest[0]] + rest[1..]
  }

  /** Python's str.capitalize (ASCII): first character upper, rest lower. */
  function Capitalize(s: string): (r: string)
    ensures |r| == |s|
    ensures |s| > 0 ==> r[0] == UpperChar(s[0]) && r[1..] == Lower(s[1..])
  {
    if s == [] then [] else [UpperChar(s[0])] + Lower(s[1..])
  }

  /** The breadcrumb of the detail page: the capitalised district and, when
      the stored string has a second part, the capitalised wijk. */
  function Breadcrumb(stored: string): (Option<string>, Option<string>)
  {
    var parts := SplitDistrict(stored);
    (Some(Capitalize(parts[0])), if |parts| > 1 then Some(Capitalize(parts[1])) else None)
  }

  predicate NoDash(s: string) { forall i :: 0 <= i < |s| ==> s[i] != '-' }

  lemma {:induction false} SplitNoDash(b: string)
    requires NoDash(b)
    ensures SplitDistrict(b) == [b]
    decreases |b|
  {
    if |b| >= 3 {
      assert b[..3] != Separator by { assert b[1] != '-'; }
      SplitNoDash(b[1..]);
      assert [b[0]] + b[1..] == b;
    }
  }

  lemma {:induction false} SplitJoined(a: string, b: string)
    requires NoDash(a)
    ensures SplitDistrict(a + Separator + b) == [a] + SplitDistrict(b)
    decreases |a|
  {
    var s := a + Separator + b;
    if a == [] {
      assert s[..3] == Separator;
      assert s[3..] == b;
    } else {
      assert s[..3] != Separator by { assert s[1] != '-'; }
      assert s[1..] == a[1..] + Separator + b;
      SplitJoined(a[1..], b);
      assert [s[0]] + a[1..] == a;
    }
  }

  lemma LowerNoDash(s: string)
    requires NoDash(s)
    ensures NoDash(Lower(s))
  {
  }

  lemma LowerAppend(a: string, b: string)
    ensures Lower(a + b) == Lower(a) + Lower(b)
  {
    forall i | 0 <= i < |a + b|
      ensures Lower(a + b)[i] == (Lower(a) + Lower(b))[i]
    {
      if i < |a| { assert (a + b)[i] == a[i]; } else { assert (a + b)[i] == b[i - |a|]; }
    }
  }

  lemma CapitalizeLower(s: string)
    ensures Capitalize(Lower(s)) == Capitalize(s)
  {
    if s != [] {
      var l := Lower(s);
      assert UpperChar(l[0]) == UpperChar(s[0]);
      assert l[1..] == Lower(s[1..]);
      LowerIdempotent(s[1..]);
    }
  }

  /** Splitting a composed district string gives back the lower-cased
      district and, when one was given, the lower-cased wijk. */
  lemma ComposeSplit(district: string, wijk: string)
    requires NoDash(district) && NoDash(wijk)
    ensures SplitDistrict(ComposeDistrict(district, wijk))
            == if wijk != "" then [Lower(district), Lower(wijk)] else [Lower(district)]
  {
    LowerNoDash(district);
    LowerNoDash(wijk);
    if wijk != "" {
      LowerAppend(district + Separator, wijk);
      LowerAppend(district, Separator);
      assert Lower(Separator) == Separator;
      SplitJoined(Lower(district), Lower(wijk));
      SplitNoDash(Lower(wijk));
    } else {
      SplitNoDash(Lower(district));
    }
  }

  /** Composing a district and a wijk (neither containing '-') and splitting
      the stored string again gives back both names, capitalised; without a
      wijk the breadcrumb has no wijk. */
  lemma {:induction false} BreadcrumbOfComposed(district: string, wijk: string)
    requires NoDash(district) && NoDash(wijk)
    ensures wijk != "" ==> Breadcrumb(ComposeDistrict(district, wijk))
                           == (Some(Capitalize(district)), Some(Capitalize(wijk)))
    ensures wijk == "" ==> Breadcrumb(ComposeDistrict(district, wijk))
                           == (Some(Capitalize(district)), None)
  {
    ComposeSplit(district, wijk);
    CapitalizeLower(district);
    CapitalizeLower(wijk);
  }

  // ---------------------------------------------------------------------
  // api_wijken
  // ---------------------------------------------------------------------

  /** DISTRICT_WIJKEN.get(district.lower(), []), the table being a parameter. */
  function ApiWijken(table: map<string, seq<string>>, district: string): seq<string>
  {
    if Lower(district) in table then table[Lower(district)] else []
  }

  /** The lookup ignores the case of the district and answers [] for an
      unknown one. */
  lemma ApiWijkenCaseInsensitive(table: map<string, seq<string>>, d1: string, d2: string)
    requires Lower(d1) == Lower(d2)
    ensures ApiWijken(table, d1) == ApiWijken(table, d2)
    ensures Lower(d1) !in table ==> ApiWijken(table, d1) == []
  {
  }
}
