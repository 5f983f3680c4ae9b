/** `BundleManager.formatMoney`: renders an integer number of cents through a
    Shopify-style money template such as `${{amount}}`.

    The amount is an integer number of cents, so `Math.round` is the identity
    and `toFixed` is written out with integer division: two decimals print the
    cents exactly, no decimals round half away from zero. */
module Money {
  import opened Wrappers

  /** What the formatter receives as `cents`: a number of cents, `null`, or a
      value that is `NaN` (`undefined` included). */
  datatype Amount = Cents(n: int) | Null | NotANumber

  datatype Precision = TwoDecimals | NoDecimals

  /** How one placeholder key renders the amount. */
  datatype Style = Style(precision: Precision, thousands: char, decimal: char)

  /** The template used when none (or an empty one) is given. */
  const DefaultFormat: string := "${{amount}}"

  // ---------------------------------------------------------------------------
  // Decimal digits

  predicate IsDigit(c: char) {
    '0' <= c <= '9'
  }

  predicate AllDigits(s: string) {
    forall i :: 0 <= i < |s| ==> IsDigit(s[i])
  }

  function DigitChar(d: nat): char
    requires d < 10
  {
    ('0' as int + d) as char
  }

  /** The value of one character read as a digit; anything else reads as 0. */
  function DigitValue(c: char): nat {
    if IsDigit(c) then c as int - '0' as int else 0
  }

  /** The decimal notation of `n`, without leading zeros. */
  function Digits(n: nat): (s: string)
    ensures |s| >= 1 && AllDigits(s)
    ensures s[0] == '0' ==> n == 0 && |s| == 1
    decreases n
  {
    if n < 10 then [DigitChar(n)] else Digits(n / 10) + [DigitChar(n % 10)]
  }

  /** Exactly two digits, with a leading zero below ten. */
  function Pad2(n: nat): (s: string)
    requires n < 100
    ensures |s| == 2 && AllDigits(s)
  {
    [DigitChar(n / 10), DigitChar(n % 10)]
  }

  /** Reads a string of digits as a number (the reference reading of `Digits`). */
  function ValueOf(s: string): nat {
    if s == [] then 0 else ValueOf(s[..|s| - 1]) * 10 + DigitValue(s[|s| - 1])
  }

  lemma {:induction false} ValueOfDigits(n: nat)
    ensures ValueOf(Digits(n)) == n
    decreases n
  {
    if n >= 10 {
      var s := Digits(n);
      assert s[..|s| - 1] == Digits(n / 10);
      ValueOfDigits(n / 10);
    }
  }

  lemma ValueOfPad2(n: nat)
    requires n < 100
    ensures ValueOf(Pad2(n)) == n
  {
    var s := Pad2(n);
    assert s[..1] == [DigitChar(n / 10)];
    assert s[..1][..0] == [];
    assert ValueOf(s[..1]) == DigitValue(DigitChar(n / 10)) == n / 10;
    assert ValueOf(s) == ValueOf(s[..1]) * 10 + DigitValue(DigitChar(n % 10));
  }

  // ---------------------------------------------------------------------------
  // Thousands grouping: `/(\d)(?=(\d{3})+(?!\d))/g` replaced by `$1` + separator

  /** `d` with `sep` inserted after every digit that is followed by a
      positive multiple of three digits. */
  function Group(d: string, sep: char): (g: string)
    ensures |g| >= |d|
    ensures |d| >= 1 ==> g[0] == d[0]
    decreases |d|
  {
    if |d| <= 3 then d else Group(d[..|d| - 3], sep) + [sep] + d[|d| - 3..]
  }

  /** `s` with every `sep` removed. */
  function Ungroup(s: string, sep: char): string {
    if s == [] then [] else Ungroup(s[..|s| - 1], sep) + (if s[|s| - 1] == sep then [] else [s[|s| - 1]])
  }

  lemma {:induction false} UngroupAppend(a: string, b: string, sep: char)
    ensures Ungroup(a + b, sep) == Ungroup(a, sep) + Ungroup(b, sep)
    decreases |b|
  {
    if b == [] {
      assert a + b == a;
    } else {
      var b' := b[..|b| - 1];
      assert (a + b)[..|a + b| - 1] == a + b';
      UngroupAppend(a, b', sep);
    }
  }

  lemma {:induction false} UngroupFree(d: string, sep: char)
    requires forall i :: 0 <= i < |d| ==> d[i] != sep
    ensures Ungroup(d, sep) == d
    decreases |d|
  {
    if d != [] {
      UngroupFree(d[..|d| - 1], sep);
    }
  }

  /** Removing the separators gives the digits back. */
  lemma {:induction false} UngroupGroup(d: string, sep: char)
    requires forall i :: 0 <= i < |d| ==> d[i] != sep
    ensures Ungroup(Group(d, sep), sep) == d
    decreases |d|
  {
    if |d| <= 3 {
      UngroupFree(d, sep);
    } else {
      var head, tail := d[..|d| - 3], d[|d| - 3..];
      UngroupGroup(head, sep);
      UngroupAppend(Group(head, sep) + [sep], tail, sep);
      UngroupAppend(Group(head, sep), [sep], sep);
      UngroupFree(tail, sep);
      assert [sep][..0] == [];
      assert head + tail == d;
    }
  }

  /** The grouped text has one separator per full group of three digits, and
      the separators sit exactly at the positions a multiple of four from the
      end: a first group of one to three digits, then groups of three. */
  lemma {:induction false} GroupLayout(d: string, sep: char)
    requires |d| >= 1
    requires forall i :: 0 <= i < |d| ==> d[i] != sep
    ensures |Group(d, sep)| == |d| + (|d| - 1) / 3
    ensures forall k :: 0 <= k < |Group(d, sep)| ==>
              (Group(d, sep)[k] == sep <==> k > 0 && (|Group(d, sep)| - k) % 4 == 0)
    decreases |d|
  {
    if |d| > 3 {
      var head := d[..|d| - 3];
      GroupLayout(head, sep);
      var g, h := Group(d, sep), Group(head, sep);
      assert g == h + [sep] + d[|d| - 3..];
      assert |g| == |h| + 4;
      forall k | 0 <= k < |g|
        ensures g[k] == sep <==> k > 0 && (|g| - k) % 4 == 0
      {
        if k < |h| {
          assert g[k] == h[k];
          ModFourShift(|h| - k);
        } else if k == |h| {
          assert g[k] == sep && |g| - k == 4;
        } else {
          assert g[k] == d[|d| - 3 + (k - |h| - 1)];
          assert 0 < |g| - k < 4;
        }
      }
    }
  }

  lemma ModFourShift(x: int)
    ensures (x + 4) % 4 == x % 4
  {
  }

  // ---------------------------------------------------------------------------
  // formatWithDelimiters

  /** `formatWithDelimiters(cents, precision, thousands, decimal)`: `null` and
      `NaN` give the number 0, which the final replace prints as "0". */
  function FormatWithDelimiters(cents: Amount, precision: Precision, thousands: char, decimal: char): (r: string)
    ensures !cents.Cents? ==> r == "0"
    ensures cents.Cents? ==> |r| >= 1 && (r[0] == '-' <==> cents.n < 0)
  {
    match cents
    case Cents(n) =>
      var m := if n < 0 then -n else n;
      var sign := if n < 0 then "-" else "";
      (match precision
       case TwoDecimals => sign + Group(Digits(m / 100), thousands) + [decimal] + Pad2(m % 100)
       case NoDecimals => sign + Group(Digits((m + 50) / 100), thousands))
    case _ => "0"
  }

  /** Reference reading of a formatted amount back into cents: an optional
      minus sign, then its `Magnitude`. */
  function ParseAmount(s: string, thousands: char, decimal: char): int {
    if |s| > 0 && s[0] == '-' then -(Magnitude(s[1..], thousands, decimal) as int) else Magnitude(s, thousands, decimal)
  }

  /** Digits with `thousands` separators, then optionally `decimal` and two
      digits of cents, read as cents. */
  function Magnitude(body: string, thousands: char, decimal: char): nat {
    if |body| >= 3 && body[|body| - 3] == decimal then
      ValueOf(Ungroup(body[..|body| - 3], thousands)) * 100 + ValueOf(body[|body| - 2..])
    else
      ValueOf(Ungroup(body, thousands)) * 100
  }

  predicate Separators(thousands: char, decimal: char) {
    !IsDigit(thousands) && !IsDigit(decimal) && thousands != decimal && thousands != '-' && decimal != '-'
  }

  lemma ParseSigned(negative: bool, body: string, thousands: char, decimal: char)
    requires |body| > 0 && IsDigit(body[0])
    ensures ParseAmount((if negative then "-" else "") + body, thousands, decimal)
            == if negative then -(Magnitude(body, thousands, decimal) as int) else Magnitude(body, thousands, decimal)
  {
    if negative {
      assert ("-" + body)[1..] == body;
    } else {
      assert "" + body == body;
    }
  }

  lemma MagnitudeWithCents(g: string, p: string, thousands: char, decimal: char)
    requires |p| == 2
    ensures Magnitude(g + [decimal] + p, thousands, decimal) == ValueOf(Ungroup(g, thousands)) * 100 + ValueOf(p)
  {
    var body := g + [decimal] + p;
    assert body[|body| - 3] == decimal;
    assert body[..|body| - 3] == g;
    assert body[|body| - 2..] == p;
  }

  /** The unsigned part of a formatted amount reads back as its magnitude. */
  lemma GroupedDigitsValue(n: nat, thousands: char)
    requires !IsDigit(thousands)
    ensures ValueOf(Ungroup(Group(Digits(n), thousands), thousands)) == n
  {
    UngroupGroup(Digits(n), thousands);
    ValueOfDigits(n);
  }

  /** The unsigned text printed with two decimals reads back as `m` cents. */
  lemma MagnitudeTwoDecimals(m: nat, thousands: char, decimal: char)
    requires Separators(thousands, decimal)
    ensures Magnitude(Group(Digits(m / 100), thousands) + [decimal] + Pad2(m % 100), thousands, decimal) == m
  {
    MagnitudeWithCents(Group(Digits(m / 100), thousands), Pad2(m % 100), thousands, decimal);
    GroupedDigitsValue(m / 100, thousands);
    ValueOfPad2(m % 100);
  }

  lemma TwoDecimalsShape(n: int, thousands: char, decimal: char)
    ensures var m := if n < 0 then -n else n;
      var body := Group(Digits(m / 100), thousands) + [decimal] + Pad2(m % 100);
      && FormatWithDelimiters(Cents(n), TwoDecimals, thousands, decimal) == (if n < 0 then "-" else "") + body
      && IsDigit(body[0])
  {
    var m := if n < 0 then -n else n;
    var g := Group(Digits(m / 100), thousands);
    assert (g + [decimal] + Pad2(m % 100))[0] == g[0];
  }

  /** With two decimals the formatted text reads back as exactly the cents. */
  lemma FormatTwoDecimalsRoundTrip(n: int, thousands: char, decimal: char)
    requires Separators(thousands, decimal)
    ensures ParseAmount(FormatWithDelimiters(Cents(n), TwoDecimals, thousands, decimal), thousands, decimal) == n
  {
    var m := if n < 0 then -n else n;
    var body := Group(Digits(m / 100), thousands) + [decimal] + Pad2(m % 100);
    TwoDecimalsShape(n, thousands, decimal);
    ParseSigned(n < 0, body, thousands, decimal);
    MagnitudeTwoDecimals(m, thousands, decimal);
  }

  /** The whole units printed without decimals: the magnitude rounded half
      away from zero. */
  lemma RoundHalfUp(m: nat)
    ensures var w := (m + 50) / 100; w * 100 - 50 <= m < w * 100 + 50
  {
  }

  /** A grouped number without decimals reads back as its value in cents. */
  lemma MagnitudeWhole(w: nat, thousands: char, decimal: char)
    requires Separators(thousands, decimal)
    ensures Magnitude(Group(Digits(w), thousands), thousands, decimal) == w * 100
  {
    var g := Group(Digits(w), thousands);
    if |g| >= 3 {
      GroupLayout(Digits(w), thousands);
      assert g[|g| - 3] != decimal;
    }
    GroupedDigitsValue(w, thousands);
  }

  lemma NoDecimalsShape(n: int, thousands: char, decimal: char)
    ensures var m := if n < 0 then -n else n;
      var g := Group(Digits((m + 50) / 100), thousands);
      && FormatWithDelimiters(Cents(n), NoDecimals, thousands, decimal) == (if n < 0 then "-" else "") + g
      && IsDigit(g[0])
  {
  }

  /** Without decimals the text reads back as the amount rounded to a whole
      unit, half away from zero. */
  lemma FormatNoDecimalsRounds(n: int, thousands: char, decimal: char)
    requires Separators(thousands, decimal)
    ensures var r := ParseAmount(FormatWithDelimiters(Cents(n), NoDecimals, thousands, decimal), thousands, decimal);
      && r % 100 == 0
      && (n >= 0 ==> r - 50 <= n < r + 50)
      && (n < 0 ==> r - 50 < n <= r + 50)
  {
    var m := if n < 0 then -n else n;
    var w := (m + 50) / 100;
    var g := Group(Digits(w), thousands);
    NoDecimalsShape(n, thousands, decimal);
    ParseSigned(n < 0, g, thousands, decimal);
    MagnitudeWhole(w, thousands, decimal);
    var r := ParseAmount(FormatWithDelimiters(Cents(n), NoDecimals, thousands, decimal), thousands, decimal);
    assert r == if n < 0 then -(w * 100) else w * 100;
    SignedRounding(n, w);
  }

  lemma SignedRounding(n: int, w: nat)
    requires w == ((if n < 0 then -n else n) + 50) / 100
    ensures var r := if n < 0 then -(w * 100) else w * 100;
      && r % 100 == 0
      && (n >= 0 ==> r - 50 <= n < r + 50)
      && (n < 0 ==> r - 50 < n <= r + 50)
  {
    RoundHalfUp(if n < 0 then -n else n);
    assert -(w * 100) == (0 - w) * 100;
  }

  /** `,` and `.` exchanged, everything else kept. */
  function SwapSeparators(s: string): (r: string)
    ensures |r| == |s|
  {
    if s == [] then []
    else SwapSeparators(s[..|s| - 1]) + [if s[|s| - 1] == ',' then '.' else if s[|s| - 1] == '.' then ',' else s[|s| - 1]]
  }

  lemma {:induction false} SwapAppend(a: string, b: string)
    ensures SwapSeparators(a + b) == SwapSeparators(a) + SwapSeparators(b)
    decreases |b|
  {
    if b == [] {
      assert a + b == a;
    } else {
      assert (a + b)[..|a + b| - 1] == a + b[..|b| - 1];
      SwapAppend(a, b[..|b| - 1]);
    }
  }

  lemma {:induction false} SwapDigits(d: string)
    requires AllDigits(d)
    ensures SwapSeparators(d) == d
    decreases |d|
  {
    if d != [] {
      SwapDigits(d[..|d| - 1]);
    }
  }

  lemma {:induction false} SwapGroup(d: string)
    requires AllDigits(d)
    ensures SwapSeparators(Group(d, ',')) == Group(d, '.')
    decreases |d|
  {
    if |d| <= 3 {
      SwapDigits(d);
    } else {
      var head, tail := d[..|d| - 3], d[|d| - 3..];
      SwapGroup(head);
      SwapAppend(Group(head, ',') + [','], tail);
      SwapAppend(Group(head, ','), [',']);
      SwapDigits(tail);
      assert SwapSeparators([',']) == SwapSeparators([]) + ['.'];
    }
  }

  lemma SwapSign(negative: bool)
    ensures SwapSeparators(if negative then "-" else "") == if negative then "-" else ""
  {
    if negative {
      assert SwapSeparators("-") == SwapSeparators([]) + ['-'];
    }
  }

  lemma SwapDecimalPoint(p: string)
    requires AllDigits(p)
    ensures SwapSeparators(['.'] + p) == [','] + p
  {
    SwapAppend(['.'], p);
    SwapDigits(p);
    assert SwapSeparators(['.']) == SwapSeparators([]) + [','];
  }

  /** A signed grouped number followed by `rest`, with `,` and `.` exchanged. */
  lemma SwapSignedGroup(negative: bool, d: string, rest: string)
    requires AllDigits(d)
    ensures var sign := if negative then "-" else "";
      SwapSeparators(sign + Group(d, ',') + rest) == sign + Group(d, '.') + SwapSeparators(rest)
  {
    var sign := if negative then "-" else "";
    SwapAppend(sign + Group(d, ','), rest);
    SwapAppend(sign, Group(d, ','));
    SwapSign(negative);
    SwapGroup(d);
  }

  lemma SwapTwoDecimals(n: int)
    ensures FormatWithDelimiters(Cents(n), TwoDecimals, '.', ',') == SwapSeparators(FormatWithDelimiters(Cents(n), TwoDecimals, ',', '.'))
  {
    var m := if n < 0 then -n else n;
    var sign := if n < 0 then "-" else "";
    var p := Pad2(m % 100);
    var d := Digits(m / 100);
    SwapSignedGroup(n < 0, d, ['.'] + p);
    SwapDecimalPoint(p);
    TwoDecimalsShape(n, ',', '.');
    TwoDecimalsShape(n, '.', ',');
    assert sign + (Group(d, ',') + ['.'] + p) == sign + Group(d, ',') + (['.'] + p);
    assert sign + (Group(d, '.') + [','] + p) == sign + Group(d, '.') + ([','] + p);
  }

  lemma SwapNoDecimals(n: int)
    ensures FormatWithDelimiters(Cents(n), NoDecimals, '.', ',') == SwapSeparators(FormatWithDelimiters(Cents(n), NoDecimals, ',', '.'))
  {
    var m := if n < 0 then -n else n;
    var sign := if n < 0 then "-" else "";
    var d := Digits((m + 50) / 100);
    SwapSignedGroup(n < 0, d, []);
    NoDecimalsShape(n, ',', '.');
    NoDecimalsShape(n, '.', ',');
    assert sign + Group(d, ',') + [] == sign + Group(d, ',');
    assert sign + Group(d, '.') + [] == sign + Group(d, '.');
  }

  /** The `_with_comma_separator` keys print what the plain keys print with
      `,` and `.` exchanged. */
  lemma CommaSeparatorSwaps(cents: Amount, precision: Precision)
    ensures FormatWithDelimiters(cents, precision, '.', ',') == SwapSeparators(FormatWithDelimiters(cents, precision, ',', '.'))
  {
    if cents.Cents? {
      if precision == TwoDecimals {
        SwapTwoDecimals(cents.n);
      } else {
        SwapNoDecimals(cents.n);
      }
    } else {
      assert SwapSeparators("0") == SwapSeparators([]) + ['0'];
    }
  }

  // ---------------------------------------------------------------------------
  // The placeholder `/\{\{\s*(\w+)\s*\}\}/`

  /** `\s`: ECMAScript white space and line terminators. */
  predicate IsSpace(c: char) {
    c == ' ' || c == '\t' || c == '\n' || c == '\r' || c == '\U{000B}' || c == '\U{000C}'
    || c == '\U{00A0}' || c == '\U{1680}' || ('\U{2000}' <= c <= '\U{200A}')
    || c == '\U{2028}' || c == '\U{2029}' || c == '\U{202F}' || c == '\U{205F}'
    || c == '\U{3000}' || c == '\U{FEFF}'
  }

  /** `\w`: ASCII letters, digits and underscore. */
  predicate IsWordChar(c: char) {
    ('a' <= c <= 'z') || ('A' <= c <= 'Z') || IsDigit(c) || c == '_'
  }

  /** The end of the run of white space starting at `i`. */
  function SkipSpaces(s: string, i: nat): (j: nat)
    requires i <= |s|
    ensures i <= j <= |s|
    ensures forall k :: i <= k < j ==> IsSpace(s[k])
    ensures j == |s| || !IsSpace(s[j])
    decreases |s| - i
  {
    if i < |s| && IsSpace(s[i]) then SkipSpaces(s, i + 1) else i
  }

  /** The end of the run of word characters starting at `i`. */
  function SkipWord(s: string, i: nat): (j: nat)
    requires i <= |s|
    ensures i <= j <= |s|
    ensures forall k :: i <= k < j ==> IsWordChar(s[k])
    ensures j == |s| || !IsWordChar(s[j])
    decreases |s| - i
  {
    if i < |s| && IsWordChar(s[i]) then SkipWord(s, i + 1) else i
  }

  /** A match of the placeholder: `s[start..end]`, capturing `key`. */
  datatype Placeholder = Placeholder(start: nat, end: nat, key: string)

  /** `s[i..c + 2]` is `{{`, white space up to `a`, the word `s[a..b]`, white
      space up to `c`, then `}}`. */
  predicate Layout(s: string, i: nat, a: nat, b: nat, c: nat) {
    && i + 2 <= a < b <= c && c + 2 <= |s|
    && s[i] == '{' && s[i + 1] == '{'
    && (forall k :: i + 2 <= k < a ==> IsSpace(s[k]))
    && (forall k :: a <= k < b ==> IsWordChar(s[k]))
    && (forall k :: b <= k < c ==> IsSpace(s[k]))
    && s[c] == '}' && s[c + 1] == '}'
  }

  /** The match of the placeholder that begins at `i`, if any. White space and
      word characters are disjoint classes, so the greedy reading is the only
      one the regular expression can accept (`MatchAtLayout` is the converse). */
  function MatchAt(s: string, i: nat): (r: Option<Placeholder>)
    ensures r.Some? ==> r.value.start == i && i + 4 <= r.value.end <= |s|
    ensures r.Some? ==> exists a: nat, b: nat :: Layout(s, i, a, b, r.value.end - 2) && r.value.key == s[a..b]
  {
    if i + 2 <= |s| && s[i] == '{' && s[i + 1] == '{' then
      var a := SkipSpaces(s, i + 2);
      var b := SkipWord(s, a);
      var c := SkipSpaces(s, b);
      if a < b && c + 2 <= |s| && s[c] == '}' && s[c + 1] == '}' then
        assert Layout(s, i, a, b, c);
        Some(Placeholder(i, c + 2, s[a..b]))
      else None
    else None
  }

  lemma {:induction false} SkipSpacesStopsAt(s: string, i: nat, b: nat)
    requires i <= b < |s|
    requires forall k :: i <= k < b ==> IsSpace(s[k])
    requires !IsSpace(s[b])
    ensures SkipSpaces(s, i) == b
    decreases b - i
  {
    if i < b {
      SkipSpacesStopsAt(s, i + 1, b);
    }
  }

  /** Word characters are never white space. */
  lemma WordCharIsNotSpace(c: char)
    requires IsWordChar(c)
    ensures !IsSpace(c)
  {
  }

  lemma LayoutSkips(s: string, i: nat, a: nat, b: nat, c: nat)
    requires Layout(s, i, a, b, c)
    ensures SkipSpaces(s, i + 2) == a && SkipWord(s, a) == b && SkipSpaces(s, b) == c
  {
    WordCharIsNotSpace(s[a]);
    SkipSpacesStopsAt(s, i + 2, a);
    assert !IsWordChar(s[b]) by {
      if b < c {
        assert IsSpace(s[b]);
        if IsWordChar(s[b]) {
          WordCharIsNotSpace(s[b]);
        }
      } else {
        assert s[b] == '}';
      }
    }
    SkipWordStopsAt(s, a, b);
    assert !IsSpace(s[c]);
    SkipSpacesStopsAt(s, b, c);
  }

  /** Every text laid out as a placeholder is matched, capturing its word. */
  lemma MatchAtLayout(s: string, i: nat, a: nat, b: nat, c: nat)
    requires Layout(s, i, a, b, c)
    ensures MatchAt(s, i) == Some(Placeholder(i, c + 2, s[a..b]))
  {
    LayoutSkips(s, i, a, b, c);
  }

  /** The leftmost match at or after `from` (`String.prototype.match` without
      the global flag). */
  function FindPlaceholder(s: string, from: nat): (r: Option<Placeholder>)
    requires from <= |s|
    ensures r.Some? ==> from <= r.value.start < r.value.end <= |s| && MatchAt(s, r.value.start) == r
    ensures r.Some? ==> forall k :: from <= k < r.value.start ==> MatchAt(s, k).None?
    ensures r.None? ==> forall k :: from <= k <= |s| ==> MatchAt(s, k).None?
    decreases |s| - from
  {
    if MatchAt(s, from).Some? then MatchAt(s, from)
    else if from == |s| then None
    else FindPlaceholder(s, from + 1)
  }

  // ---------------------------------------------------------------------------
  // formatMoney

  /** `format || '${{amount}}'`. */
  function Template(format: Option<string>): (f: string)
    ensures f != []
    ensures format.None? || format.value == [] ==> f == DefaultFormat
    ensures format.Some? && format.value != [] ==> f == format.value
  {
    if format.None? || format.value == [] then DefaultFormat else format.value
  }

  /** The `switch` on the captured key; an unknown key formats like `amount`. */
  function StyleOf(key: string): (st: Style)
    ensures st.precision == NoDecimals <==> key == "amount_no_decimals" || key == "amount_no_decimals_with_comma_separator"
    ensures st.thousands == '.' <==> key == "amount_with_comma_separator" || key == "amount_no_decimals_with_comma_separator"
    ensures (st.thousands, st.decimal) == (',', '.') || (st.thousands, st.decimal) == ('.', ',')
  {
    if key == "amount" then Style(TwoDecimals, ',', '.')
    else if key == "amount_no_decimals" then Style(NoDecimals, ',', '.')
    else if key == "amount_with_comma_separator" then Style(TwoDecimals, '.', ',')
    else if key == "amount_no_decimals_with_comma_separator" then Style(NoDecimals, '.', ',')
    else Style(TwoDecimals, ',', '.')
  }

  /** The amount rendered in the style of `key`: `null` and `NaN` give "0"
      whatever the key. */
  function KeyValue(key: string, cents: Amount): (r: string)
    ensures !cents.Cents? ==> r == "0"
    ensures cents.Cents? ==> |r| >= 1 && (r[0] == '-' <==> cents.n < 0)
  {
    var st := StyleOf(key);
    FormatWithDelimiters(cents, st.precision, st.thousands, st.decimal)
  }

  /** `formatMoney(cents, format)`: the template with its first placeholder
      replaced by the formatted amount, or the template itself when it has no
      placeholder. */
  function FormatMoney(cents: Amount, format: Option<string>): (r: string)
    ensures FindPlaceholder(Template(format), 0).None? ==> r == Template(format)
  {
    var f := Template(format);
    match FindPlaceholder(f, 0)
    case None => f
    case Some(p) => f[..p.start] + KeyValue(p.key, cents) + f[p.end..]
  }

  /** A template without any placeholder is returned unchanged. */
  lemma NoPlaceholderUnchanged(cents: Amount, f: string)
    requires f != []
    requires forall k :: 0 <= k <= |f| ==> MatchAt(f, k).None?
    ensures FormatMoney(cents, Some(f)) == f
  {
    assert FindPlaceholder(f, 0).None?;
  }

  /** A falsy template behaves as `${{amount}}`. */
  lemma FalsyTemplateDefaults(cents: Amount)
    ensures FormatMoney(cents, None) == FormatMoney(cents, Some("")) == FormatMoney(cents, Some(DefaultFormat))
  {
  }

  /** A key the placeholder's `(\w+)` can capture. */
  predicate IsWordKey(key: string) {
    key != [] && forall k :: 0 <= k < |key| ==> IsWordChar(key[k])
  }

  /** `{{key}}` written out at `i` is a match capturing `key`. */
  lemma {:induction false} MatchAtKey(f: string, i: nat, key: string)
    requires IsWordKey(key)
    requires i + |key| + 4 <= |f|
    requires f[i] == '{' && f[i + 1] == '{' && f[i + 2 + |key|] == '}' && f[i + 3 + |key|] == '}'
    requires f[i + 2..i + 2 + |key|] == key
    ensures MatchAt(f, i) == Some(Placeholder(i, i + |key| + 4, key))
  {
    var b := i + 2 + |key|;
    assert f[i + 2] == key[0];
    assert !IsSpace(f[i + 2]);
    assert SkipSpaces(f, i + 2) == i + 2;
    forall k | i + 2 <= k < b ensures IsWordChar(f[k]) {
      assert f[k] == key[k - i - 2];
    }
    SkipWordStopsAt(f, i + 2, b);
    assert SkipSpaces(f, b) == b;
  }

  lemma {:induction false} SkipWordStopsAt(s: string, i: nat, b: nat)
    requires i <= b < |s|
    requires forall k :: i <= k < b ==> IsWordChar(s[k])
    requires !IsWordChar(s[b])
    ensures SkipWord(s, i) == b
    decreases b - i
  {
    if i < b {
      SkipWordStopsAt(s, i + 1, b);
    }
  }

  /** Only the first placeholder is replaced: whatever follows it, later
      placeholders included, is kept as written. */
  lemma FirstPlaceholderReplaced(cents: Amount, prefix: string, key: string, suffix: string)
    requires forall i :: 0 <= i < |prefix| ==> prefix[i] != '{'
    requires IsWordKey(key)
    ensures FormatMoney(cents, Some(prefix + "{{" + key + "}}" + suffix)) == prefix + KeyValue(key, cents) + suffix
  {
    var f := prefix + "{{" + key + "}}" + suffix;
    var i := |prefix|;
    var e := i + |key| + 4;
    assert f[i] == '{' && f[i + 1] == '{' && f[i + 2 + |key|] == '}' && f[i + 3 + |key|] == '}';
    assert f[i + 2..i + 2 + |key|] == key;
    MatchAtKey(f, i, key);
    forall k | 0 <= k < i ensures MatchAt(f, k).None? {
      assert f[k] == prefix[k];
    }
    var r := FindPlaceholder(f, 0);
    assert r == Some(Placeholder(i, e, key));
    assert f[..i] == prefix;
    assert f[e..] == suffix;
  }

  // Worked examples. Each template is first read generically in the amount,
  // then the amount is rendered; the steps are kept in separate lemmas so that
  // each stays small. The lemmas that only join string literals
  // (`AmountKeyText`, `NoDecimalsKeyText`, `ExampleTexts`) exist for that
  // reason alone: proved apart, the literals are not unfolded again inside the
  // examples.

  lemma AmountKeyText()
    ensures IsWordKey("amount")
    ensures "$" + "{{" + "amount" + "}}" + "" == "${{amount}}"
  {
  }

  lemma DollarAmountTemplate(cents: Amount)
    ensures FormatMoney(cents, Some("${{amount}}")) == "$" + KeyValue("amount", cents)
  {
    AmountKeyText();
    FirstPlaceholderReplaced(cents, "$", "amount", "");
  }

  lemma NoDecimalsKeyText()
    ensures IsWordKey("amount_no_decimals")
    ensures "$" + "{{" + "amount_no_decimals" + "}}" + "" == "${{amount_no_decimals}}"
  {
  }

  lemma DollarNoDecimalsTemplate(cents: Amount)
    ensures FormatMoney(cents, Some("${{amount_no_decimals}}")) == "$" + KeyValue("amount_no_decimals", cents)
  {
    NoDecimalsKeyText();
    FirstPlaceholderReplaced(cents, "$", "amount_no_decimals", "");
  }

  lemma Digits1235()
    ensures Digits(1234) == "1234" && Digits(1235) == "1235"
  {
    assert Digits(1) == "1";
    assert Digits(12) == "12";
    assert Digits(123) == "123";
  }

  lemma AmountValue()
    ensures KeyValue("amount", Cents(123456)) == "1,234.56"
  {
    Digits1235();
    assert Group("1234", ',') == "1,234";
    assert Pad2(56) == "56";
  }

  lemma NoDecimalsValue()
    ensures KeyValue("amount_no_decimals", Cents(123456)) == "1,235"
  {
    Digits1235();
    assert Group("1235", ',') == "1,235";
  }

  lemma ZeroValues()
    ensures KeyValue("amount", Cents(0)) == "0.00"
    ensures KeyValue("amount", Null) == "0"
  {
    assert Pad2(0) == "00";
    assert Digits(0) == "0";
  }

  lemma ExampleTexts()
    ensures "$" + "1,234.56" == "$1,234.56"
    ensures "$" + "1,235" == "$1,235"
    ensures "$" + "0.00" == "$0.00"
    ensures "$" + "0" == "$0"
  {
  }

  lemma AmountExampleParts()
    ensures FormatMoney(Cents(123456), Some("${{amount}}")) == "$" + "1,234.56"
  {
    DollarAmountTemplate(Cents(123456));
    AmountValue();
  }

  lemma NoDecimalsExampleParts()
    ensures FormatMoney(Cents(123456), Some("${{amount_no_decimals}}")) == "$" + "1,235"
  {
    DollarNoDecimalsTemplate(Cents(123456));
    NoDecimalsValue();
  }

  lemma ZeroExampleParts()
    ensures FormatMoney(Cents(0), Some("${{amount}}")) == "$" + "0.00"
    ensures FormatMoney(Null, Some("${{amount}}")) == "$" + "0"
  {
    DollarAmountTemplate(Cents(0));
    DollarAmountTemplate(Null);
    ZeroValues();
  }

  /** Worked example: thousands grouping with two decimals. */
  lemma ExampleAmount()
    ensures FormatMoney(Cents(123456), Some("${{amount}}")) == "$1,234.56"
  {
    AmountExampleParts();
    ExampleTexts();
  }

  /** Worked example: without decimals 1234.56 rounds up to 1235. */
  lemma ExampleNoDecimals()
    ensures FormatMoney(Cents(123456), Some("${{amount_no_decimals}}")) == "$1,235"
  {
    NoDecimalsExampleParts();
    ExampleTexts();
  }

  /** Worked examples: zero cents, and `null`, which prints a bare 0. */
  lemma ExampleZeroAndNull()
    ensures FormatMoney(Cents(0), Some("${{amount}}")) == "$0.00"
    ensures FormatMoney(Null, Some("${{amount}}")) == "$0"
  {
    ZeroExampleParts();
    ExampleTexts();
  }
}
