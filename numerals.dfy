/**
  Conversions of the data package (data/data_cov.go): spreadsheet column letters
  (bijective base 26: "A" is 1, "Z" is 26, "AA" is 27) and Chinese numerals.

  Int2AAA is recursive and stays a function. AAA2Int, Cn2an and An2cn are loops
  that accumulate their result, so each is a method proved equal to a function
  that states what it computes; the properties are lemmas about those functions.
 */
module Numerals {
  import opened Wrappers
  import Strconv
  import Slices
  import opened Library

  // ---------------------------------------------------------------------------
  // Column letters
  // ---------------------------------------------------------------------------

  function Pow(b: nat, e: nat): nat
  {
    if e == 0 then 1 else b * Pow(b, e - 1)
  }

  predicate IsUpper(c: char) {
    'A' <= c <= 'Z'
  }

  predicate AllUpper(s: string) {
    forall i :: 0 <= i < |s| ==> IsUpper(s[i])
  }

  /**
    Go's `string(rune(v))`: v is truncated to 32 bits, and a value that is not a
    Unicode scalar value becomes U+FFFD.
   */
  function RuneText(v: int): (s: string)
    ensures |s| == 1
    ensures 0 <= v < 0xD800 ==> s[0] as int == v
  {
    var w := v % 0x1_0000_0000;
    var r := if w >= 0x8000_0000 then w - 0x1_0000_0000 else w;
    if 0 <= r < 0xD800 || 0xE000 <= r <= 0x10FFFF then [r as char] else ['�']
  }

  /**
    Int2AAA: numbers up to 26 become one rune; larger ones split into a quotient
    and a remainder in 1..26 (a zero remainder borrows one from the quotient).
    The quotient is integer division, but the remainder is math.Mod of the
    number converted to float64, so above 2^53 it is the remainder of the
    rounded number.
   */
  function Int2AAA(colIndex: Strconv.Int64): (colName: string)
    ensures 1 <= colIndex <= 26 ==> colName == [(colIndex + 64) as char]
    ensures colIndex >= 1 ==> |colName| >= 1 && AllUpper(colName)
    decreases colIndex
  {
    if colIndex <= 26 then RuneText(colIndex + 64)
    else
      var m := RoundToDouble(colIndex) % 26;
      var result := if m == 0 then colIndex / 26 - 1 else colIndex / 26;
      var mod := if m == 0 then 26 else m;
      if result > 26 then Int2AAA(result) + RuneText(mod + 64)
      else
        (if result != 0 then RuneText(result + 64) else "")
        + (if mod != 0 then RuneText(mod + 64) else "")
  }

  /** The column number a name denotes: base 26 with digit value `c - 64`. */
  function ColumnNumber(colName: string): int
  {
    if colName == [] then 0
    else ColumnNumber(colName[..|colName| - 1]) * 26 + (colName[|colName| - 1] as int - 64)
  }

  lemma PowStep(e: nat)
    ensures Pow(26, e + 1) == 26 * Pow(26, e)
  {
  }

  /** The number of bytes of a character in UTF-8. */
  function Utf8Len(c: char): (n: nat)
    ensures 1 <= n <= 4
    ensures n == 1 <==> c as int < 0x80
  {
    if c as int < 0x80 then 1
    else if c as int < 0x800 then 2
    else if c as int < 0x1_0000 then 3
    else 4
  }

  /** len(s) of a Go string: its length in UTF-8 bytes. */
  function ByteLen(s: string): (n: nat)
    ensures n >= |s|
  {
    if s == [] then 0 else Utf8Len(s[0]) + ByteLen(s[1..])
  }

  /**
    The value AAA2Int computes: `range` visits each character at its byte
    offset i, and the character weighs 26^(len - 1 - i) with len the length in
    bytes; the weight of the first character is thus 26^(ByteLen(s) - 1).
   */
  function NameValue(colName: string): int
  {
    if colName == [] then 0
    else (colName[0] as int - 64) * Pow(26, ByteLen(colName) - 1) + NameValue(colName[1..])
  }

  /** AAA2Int: the sum of `(c - 64) * 26^(len - 1 - i)` over the characters c at byte offsets i. */
  method AAA2Int(colName: string) returns (colIndex: int)
    ensures colIndex == NameValue(colName)
  {
    var length := ByteLen(colName);
    colIndex := 0;
    var offset := 0;
    for k := 0 to |colName|
      invariant offset + ByteLen(colName[k..]) == length
      invariant colIndex + NameValue(colName[k..]) == NameValue(colName)
    {
      var col := colName[k];
      assert colName[k..][1..] == colName[k + 1..];
      colIndex := colIndex + (col as int - 64) * Pow(26, length - 1 - offset);
      offset := offset + Utf8Len(col);
    }
  }

  /** The column number of a name followed by its first letter split off. */
  lemma {:induction false} ColumnNumberCons(c: char, t: string)
    ensures ColumnNumber([c] + t) == (c as int - 64) * Pow(26, |t|) + ColumnNumber(t)
    decreases |t|
  {
    if t != [] {
      var u := t[..|t| - 1];
      var s := [c] + t;
      assert s[..|s| - 1] == [c] + u;
      ColumnNumberCons(c, u);
      PowStep(|u|);
      var d, x, p := t[|t| - 1] as int - 64, c as int - 64, Pow(26, |u|);
      assert ColumnNumber(t) == ColumnNumber(u) * 26 + d;
      calc {
        ColumnNumber(s);
        (x * p + ColumnNumber(u)) * 26 + d;
        x * (p * 26) + (ColumnNumber(u) * 26 + d);
      }
    }
  }

  /** On upper-case names every character is one byte, so AAA2Int computes the column number. */
  lemma {:induction false} NameValueOfUpper(colName: string)
    requires AllUpper(colName)
    ensures ByteLen(colName) == |colName|
    ensures NameValue(colName) == ColumnNumber(colName)
    decreases |colName|
  {
    if colName != [] {
      NameValueOfUpper(colName[1..]);
      assert colName == [colName[0]] + colName[1..];
      ColumnNumberCons(colName[0], colName[1..]);
    }
  }

  /** "É" is two bytes in UTF-8, so AAA2Int weighs its value 137 by 26: 3562, not 137. */
  lemma NameValueOfTwoByteLetter()
    ensures ByteLen("É") == 2
    ensures NameValue("É") == 3562 && ColumnNumber("É") == 137
  {
    assert "É"[1..] == [] && "É"[..0] == [];
  }

  /** A name of n >= 1 letters denotes at least the number of "AA...A". */
  lemma {:induction false} ColumnNumberBounds(colName: string)
    requires AllUpper(colName)
    ensures colName != [] ==> ColumnNumber(colName) >= 1
    ensures |colName| >= 2 ==> ColumnNumber(colName) >= 27
    ensures |colName| <= 1 ==> ColumnNumber(colName) <= 26
    decreases |colName|
  {
    if colName != [] {
      ColumnNumberBounds(colName[..|colName| - 1]);
    }
  }

  /** Int2AAA followed by AAA2Int gives the number back, for every n from 1 to 2^53. */
  lemma {:induction false} ColumnNumberOfInt2AAA(n: Strconv.Int64)
    requires 1 <= n <= ExactDoubleBound
    ensures ColumnNumber(Int2AAA(n)) == n
    decreases n
  {
    if n > 26 {
      RoundExact(n);
      var result := if n % 26 == 0 then n / 26 - 1 else n / 26;
      var mod := if n % 26 == 0 then 26 else n % 26;
      assert n == result * 26 + mod;
      var last := RuneText(mod + 64);
      if result > 26 {
        var s := Int2AAA(result) + last;
        assert s[..|s| - 1] == Int2AAA(result);
        ColumnNumberOfInt2AAA(result);
      } else {
        assert result >= 1;
        var s := RuneText(result + 64) + last;
        assert Int2AAA(n) == s;
        assert s[..1] == RuneText(result + 64);
        assert s[0] as int == result + 64 && s[1] as int == mod + 64;
        assert ColumnNumber(s[..1]) == result;
      }
    }
  }

  /** Splitting q * 26 + d, with d a letter value, as Int2AAA does. */
  lemma SplitColumn(q: int, d: int)
    requires q >= 0 && 1 <= d <= 26
    ensures var n := q * 26 + d;
      && (if n % 26 == 0 then n / 26 - 1 else n / 26) == q
      && (if n % 26 == 0 then 26 else n % 26) == d
  {
    var n := q * 26 + d;
    if d == 26 {
      assert n == (q + 1) * 26;
    } else {
      assert n / 26 == q && n % 26 == d;
    }
  }

  /** Int2AAA on q * 26 + d, for a quotient q >= 1 and a letter value d. */
  lemma Int2AAASplit(q: int, d: int)
    requires 1 <= q && 1 <= d <= 26 && q * 26 + d <= ExactDoubleBound
    ensures Int2AAA(q * 26 + d) == (if q > 26 then Int2AAA(q) else RuneText(q + 64)) + RuneText(d + 64)
  {
    SplitColumn(q, d);
    RoundExact(q * 26 + d);
  }

  /** The last letter of a name, split off. */
  lemma LastLetter(colName: string)
    requires colName != [] && AllUpper(colName)
    ensures var p := colName[..|colName| - 1]; var c := colName[|colName| - 1];
      && AllUpper(p) && colName == p + [c]
      && ColumnNumber(colName) == ColumnNumber(p) * 26 + (c as int - 64)
      && RuneText(c as int) == [c]
  {
  }

  /** A one-letter name denotes its letter value, and Int2AAA spells that value back. */
  lemma OneLetter(colName: string)
    requires |colName| == 1 && AllUpper(colName)
    ensures ColumnNumber(colName) == colName[0] as int - 64
    ensures RuneText(ColumnNumber(colName) + 64) == colName
  {
    assert colName[..0] == [];
  }

  /** AAA2Int followed by Int2AAA gives the name back, for every nonempty upper-case name up to 2^53. */
  lemma {:induction false} Int2AAAOfColumnNumber(colName: string)
    requires colName != [] && AllUpper(colName)
    requires 0 <= ColumnNumber(colName) <= ExactDoubleBound
    ensures Int2AAA(ColumnNumber(colName)) == colName
    decreases |colName|
  {
    if |colName| == 1 {
      OneLetter(colName);
    } else {
      var p, c := colName[..|colName| - 1], colName[|colName| - 1];
      LastLetter(colName);
      var q, d := ColumnNumber(p), c as int - 64;
      assert 1 <= q && p != [] by {
        ColumnNumberBounds(p);
      }
      assert p == (if q > 26 then Int2AAA(q) else RuneText(q + 64)) by {
        ColumnNumberBounds(p);
        if q > 26 {
          Int2AAAOfColumnNumber(p);
        } else {
          OneLetter(p);
        }
      }
      Int2AAASplit(q, d);
    }
  }

  /**
    Above 2^53 the round trip fails: 2^53 + 1 rounds to 2^53 before math.Mod,
    so its last letter is that of 2^53 and both numbers get the same name.
   */
  lemma Int2AAAAboveDoubleRange()
    ensures Int2AAA(ExactDoubleBound + 1) == Int2AAA(ExactDoubleBound)
    ensures ColumnNumber(Int2AAA(ExactDoubleBound + 1)) == ExactDoubleBound
  {
    var n := ExactDoubleBound;
    RoundAboveBound();
    RoundExact(n);
    assert n % 26 == 6 && n / 26 == (n + 1) / 26 == 346430740566961;
    ColumnNumberOfInt2AAA(n);
  }

  /** The documented example: column 703 is "AAA". */
  lemma ColumnExample()
    ensures Int2AAA(703) == "AAA" && ColumnNumber("AAA") == 703
  {
    assert RuneText(65) == "A";
    Int2AAASplit(1, 1);
    Int2AAASplit(27, 1);
    var name := "AAA";
    assert name[..2] == "AA" && name[..2][..1] == "A" && name[..2][..1][..0] == [];
    assert ColumnNumber("A") == 1;
    assert ColumnNumber("AA") == 27;
  }

  // ---------------------------------------------------------------------------
  // Chinese numerals to numbers
  // ---------------------------------------------------------------------------

  /** The ways a conversion can fail. */
  datatype NumeralError =
    | NotNumeral(position: nat)   // the character at this position of the reversed text is in neither table
    | TooLarge                    // a nonzero digit sits 14 or more places from the right

  /** numberCn2an: the digit characters, with their financial and colloquial variants. */
  const NumberCn2an: map<char, nat> := map[
    '零' := 0, '〇' := 0, '一' := 1, '壹' := 1, '幺' := 1, '二' := 2, '贰' := 2, '两' := 2,
    '三' := 3, '叁' := 3, '四' := 4, '肆' := 4, '五' := 5, '伍' := 5, '六' := 6, '陆' := 6,
    '七' := 7, '柒' := 7, '八' := 8, '捌' := 8, '九' := 9, '玖' := 9]

  /** unitCn2an: the unit characters and their weights. */
  const UnitCn2an: map<char, nat> := map[
    '十' := 10, '拾' := 10, '百' := 100, '佰' := 100, '千' := 1000, '仟' := 1000,
    '万' := 10000, '亿' := 100000000]

  predicate IsNumeral(c: char) {
    c in NumberCn2an || c in UnitCn2an
  }

  /** The state of the right-to-left scan: the sum so far, the current weight, and whether the last character was a unit. */
  datatype Scan = Scan(out: int, weight: int, big: bool)

  const Start := Scan(0, 1, false)

  /** One character of the scan: a digit adds digit * weight and moves the weight up one decimal place; a unit sets the weight, or multiplies it after another unit. */
  function Step(st: Scan, c: char): (r: Option<Scan>)
    ensures r.Some? <==> IsNumeral(c)
    ensures r.Some? ==> (r.value.big <==> c !in NumberCn2an)
  {
    if c in NumberCn2an then Some(Scan(st.out + NumberCn2an[c] * st.weight, st.weight * 10, false))
    else if c in UnitCn2an then
      var a := UnitCn2an[c];
      Some(Scan(st.out, if st.big then st.weight * a else a, true))
    else None
  }

  /** The scan over a list of characters, left to right; an error names the first character in neither table. */
  function Read(list: seq<char>): Result<Scan, nat>
    decreases |list|
  {
    if list == [] then Ok(Start)
    else
      var init := list[..|list| - 1];
      match Read(init)
      case Err(i) => Err(i)
      case Ok(st) =>
        match Step(st, list[|list| - 1])
        case None => Err(|list| - 1)
        case Some(next) => Ok(next)
  }

  /** The scan succeeds exactly when every character is in a table; otherwise it names the first one that is not. */
  lemma {:induction false} ReadOutcome(list: seq<char>)
    ensures Read(list).Ok? <==> forall j :: 0 <= j < |list| ==> IsNumeral(list[j])
    ensures Read(list).Err? ==> (Read(list).error < |list| && !IsNumeral(list[Read(list).error])
                                 && forall j :: 0 <= j < Read(list).error ==> IsNumeral(list[j]))
    decreases |list|
  {
    if list != [] {
      var init := list[..|list| - 1];
      ReadOutcome(init);
      assert forall j :: 0 <= j < |init| ==> init[j] == list[j];
    }
  }

  /** What Cn2an returns for a text. */
  function Cn2anOf(cn: string): Result<int, NumeralError>
  {
    match Read(Reverse(cn))
    case Ok(st) => Ok(st.out)
    case Err(i) => Err(NotNumeral(i))
  }

  /** One more character of the scan, spelled out by the table it is found in. */
  lemma ReadPush(list: seq<char>, i: nat)
    requires i < |list| && Read(list[..i]).Ok?
    ensures var st, c := Read(list[..i]).value, list[i];
      && (c in NumberCn2an ==> Read(list[..i + 1]) == Ok(Scan(st.out + NumberCn2an[c] * st.weight, st.weight * 10, false)))
      && (c !in NumberCn2an && c in UnitCn2an ==>
            Read(list[..i + 1]) == Ok(Scan(st.out, if st.big then st.weight * UnitCn2an[c] else UnitCn2an[c], true)))
      && (!IsNumeral(c) ==> Read(list[..i + 1]) == Err(i))
  {
    assert list[..i + 1][..i] == list[..i];
  }

  lemma {:induction false} ReadErrorPersists(list: seq<char>, k: nat)
    requires k <= |list| && Read(list[..k]).Err?
    ensures Read(list) == Read(list[..k])
    decreases |list| - k
  {
    if k < |list| {
      assert list[..k + 1][..k] == list[..k];
      ReadErrorPersists(list, k + 1);
    } else {
      assert list[..k] == list;
    }
  }

  lemma InsertFront<T>(a: seq<T>, x: T)
    ensures Slices.Insert(a, 0, [x]) == [x] + a
  {
    assert a[..0] + [x] + a[0..] == [x] + a;
  }

  /** Cn2an: reverse the text rune by rune, then scan it. */
  method Cn2an(cn: string) returns (r: Result<int, NumeralError>)
    ensures r == Cn2anOf(cn)
  {
    var out: int := 0;
    var cnList: seq<char> := [];
    for i := 0 to |cn|
      invariant cnList == Reverse(cn[..i])
    {
      ReversePush(cn[..i], cn[i]);
      assert cn[..i] + [cn[i]] == cn[..i + 1];
      InsertFront(cnList, cn[i]);
      cnList := Slices.Insert(cnList, 0, [cn[i]]);
    }
    assert cn[..|cn|] == cn;
    var weight: int := 1;
    var big := false;
    for i := 0 to |cnList|
      invariant Read(cnList[..i]) == Ok(Scan(out, weight, big))
    {
      var c := cnList[i];
      ReadPush(cnList, i);
      if c in NumberCn2an {
        var a := NumberCn2an[c];
        out := out + a * weight;
        weight := weight * 10;
        big := false;
      } else if c in UnitCn2an {
        var a := UnitCn2an[c];
        if big {
          weight := weight * a;
        } else {
          weight := a;
        }
        big := true;
      } else {
        ReadErrorPersists(cnList, i + 1);
        return Err(NotNumeral(i));
      }
    }
    assert cnList[..|cnList|] == cnList;
    return Ok(out);
  }

  /** Cn2an fails exactly when some character is in neither table, and the error names the last such character, counted from the right. */
  lemma Cn2anErrors(cn: string)
    ensures Cn2anOf(cn).Err? <==> exists j :: 0 <= j < |cn| && !IsNumeral(cn[j])
    ensures Cn2anOf(cn).Err? ==> var i := Cn2anOf(cn).error.position;
      i < |cn| && !IsNumeral(cn[|cn| - 1 - i])
      && forall j :: |cn| - 1 - i < j < |cn| ==> IsNumeral(cn[j])
  {
    var rev := Reverse(cn);
    ReadOutcome(rev);
    ReverseAt(cn);
    if Read(rev).Ok? {
      forall j | 0 <= j < |cn| ensures IsNumeral(cn[j]) {
        assert rev[|cn| - 1 - j] == cn[j];
      }
    } else {
      var i := Read(rev).error;
      forall j | |cn| - 1 - i < j < |cn| ensures IsNumeral(cn[j]) {
        assert rev[|cn| - 1 - j] == cn[j];
      }
    }
  }

  /** The value of a text made only of digit characters, read as positional decimal. */
  function DigitsCn(cn: string): int
    requires forall j :: 0 <= j < |cn| ==> cn[j] in NumberCn2an
  {
    if cn == [] then 0 else NumberCn2an[cn[0]] * Pow(10, |cn| - 1) + DigitsCn(cn[1..])
  }

  /** A text of digit characters alone ("一二三") reads as plain positional decimal. */
  lemma {:induction false} Cn2anOfDigits(cn: string)
    requires forall j :: 0 <= j < |cn| ==> cn[j] in NumberCn2an
    ensures Read(Reverse(cn)) == Ok(Scan(DigitsCn(cn), Pow(10, |cn|), false))
    ensures Cn2anOf(cn) == Ok(DigitsCn(cn))
    decreases |cn|
  {
    if cn != [] {
      Cn2anOfDigits(cn[1..]);
      var rev := Reverse(cn);
      assert rev[..|rev| - 1] == Reverse(cn[1..]);
    }
  }

  /** A digit, "十" and a digit read as tens and units. */
  lemma Cn2anTens(cn: string)
    requires |cn| == 3 && cn[0] in NumberCn2an && cn[1] == '十' && cn[2] in NumberCn2an
    ensures Cn2anOf(cn) == Ok(NumberCn2an[cn[0]] * 10 + NumberCn2an[cn[2]])
  {
    var tens, ones := NumberCn2an[cn[0]], NumberCn2an[cn[2]];
    assert Reverse(cn[2..]) == [cn[2]];
    assert cn[1..][1..] == cn[2..];
    assert Reverse(cn[1..]) == [cn[2], cn[1]];
    var l := [cn[2], cn[1], cn[0]];
    assert Reverse(cn) == l;
    assert l[..0] == [] && l[..1][..0] == [];
    assert Read(l[..1]) == Ok(Scan(ones, 10, false));
    assert l[..2][..1] == l[..1];
    assert Read(l[..2]) == Ok(Scan(ones, 10, true));
    assert l[..3][..2] == l[..2] && l[..3] == l;
    assert Read(l) == Ok(Scan(ones + tens * 10, 100, false));
  }

  /** The documented use: "二十一" reads as 21. */
  lemma Cn2anExample()
    ensures Cn2anOf("二十一") == Ok(21)
  {
    Cn2anTens("二十一");
  }

  // ---------------------------------------------------------------------------
  // Numbers to Chinese numerals
  // ---------------------------------------------------------------------------

  /** numberAn2cn: the character for each decimal digit. */
  const NumberAn2cn: seq<string> := ["零", "一", "二", "三", "四", "五", "六", "七", "八", "九"]

  /**
    unitAn2cn exactly as the source declares it: the unit written after a digit
    that sits p places from the right. Position 13 holds "亿亿" (10^16).
   */
  const UnitAn2cnAsWritten: seq<string> :=
    ["", "十", "百", "千", "万", "十万", "百万", "千万", "亿", "十亿", "百亿", "千亿", "万亿", "亿亿"]

  /** The unit table with position 13 corrected to "十万亿" (10^13); An2cn uses this one. */
  const UnitAn2cn: seq<string> :=
    ["", "十", "百", "千", "万", "十万", "百万", "千万", "亿", "十亿", "百亿", "千亿", "万亿", "十万亿"]

  /** `strconv.Atoi(string(a))` with its error discarded: a digit's value, or 0 for the minus sign. */
  function DigitOf(a: char): (d: nat)
    ensures d < 10
    ensures Strconv.IsDigit(a) ==> d == a as int - '0' as int
  {
    if Strconv.IsDigit(a) then a as int - '0' as int else 0
  }

  /** What the loop of An2cn appends for the character at position i of the decimal text. */
  function Piece(units: seq<string>, str: string, i: nat): Option<string>
    requires i < |str|
  {
    if str[i] == '0' then Some("零")
    else if |str| - 1 - i < |units| then Some(NumberAn2cn[DigitOf(str[i])] + units[|str| - 1 - i])
    else None
  }

  /** The text An2cn has built after the first k characters, or None once a character was too far left. */
  function Spelled(units: seq<string>, str: string, k: nat): Option<string>
    requires k <= |str|
    decreases k
  {
    if k == 0 then Some("")
    else
      match Spelled(units, str, k - 1)
      case None => None
      case Some(out) =>
        match Piece(units, str, k - 1)
        case None => None
        case Some(p) => Some(out + p)
  }

  /** No two consecutive "零". */
  predicate NoDoubleZero(s: string) {
    forall i :: 0 <= i < |s| - 1 ==> !(s[i] == '零' && s[i + 1] == '零')
  }

  /** The regular-expression replacement of every run of two or more "零" by one. */
  function CollapseZeros(s: string): string
    decreases |s|
  {
    if |s| < 2 then s
    else if s[0] == '零' && s[1] == '零' then CollapseZeros(s[1..])
    else [s[0]] + CollapseZeros(s[1..])
  }

  /** `strings.Trim(s, "零")`: strip "零" from both ends. */
  function TrimZeros(s: string): string
    decreases |s|
  {
    if s == [] then s
    else if s[0] == '零' then TrimZeros(s[1..])
    else if s[|s| - 1] == '零' then TrimZeros(s[..|s| - 1])
    else s
  }

  /** Collapsing leaves no run of "零" and keeps the first character. */
  lemma {:induction false} CollapseZerosShape(s: string)
    ensures NoDoubleZero(CollapseZeros(s))
    ensures s != [] ==> CollapseZeros(s) != [] && CollapseZeros(s)[0] == s[0]
    decreases |s|
  {
    if |s| >= 2 {
      CollapseZerosShape(s[1..]);
    }
  }

  /** Trimming leaves no "零" at either end, and a run-free text stays run-free. */
  lemma {:induction false} TrimZerosShape(s: string)
    ensures var r := TrimZeros(s); r != [] ==> r[0] != '零' && r[|r| - 1] != '零'
    ensures NoDoubleZero(s) ==> NoDoubleZero(TrimZeros(s))
    decreases |s|
  {
    if s != [] {
      if s[0] == '零' {
        TrimZerosShape(s[1..]);
      } else if s[|s| - 1] == '零' {
        TrimZerosShape(s[..|s| - 1]);
      }
    }
  }

  /** What An2cn returns for a number, with a given unit table. */
  function An2cnWith(units: seq<string>, an: int): Result<string, NumeralError>
  {
    var str := Strconv.Itoa(an);
    match Spelled(units, str, |str|)
    case None => Err(TooLarge)
    case Some(out) => Ok(TrimZeros(CollapseZeros(out)))
  }

  lemma {:induction false} SpelledNonePersists(units: seq<string>, str: string, k: nat)
    requires k <= |str| && Spelled(units, str, k).None?
    ensures Spelled(units, str, |str|).None?
    decreases |str| - k
  {
    if k < |str| {
      SpelledNonePersists(units, str, k + 1);
    }
  }

  /** An2cn: spell each character of the decimal text with its digit and unit, then collapse and trim "零". */
  method An2cn(an: Strconv.Int64) returns (r: Result<string, NumeralError>)
    ensures r == An2cnWith(UnitAn2cn, an)
    ensures r.Ok? ==> (NoDoubleZero(r.value)
                       && (r.value != [] ==> r.value[0] != '零' && r.value[|r.value| - 1] != '零'))
  {
    var str := Strconv.Itoa(an);
    var spelled := Spell(UnitAn2cn, str);
    if spelled.None? {
      return Err(TooLarge);
    }
    var out := spelled.value;
    CollapseZerosShape(out);
    TrimZerosShape(CollapseZeros(out));
    return Ok(TrimZeros(CollapseZeros(out)));
  }

  /** The loop of An2cn: each character's digit and unit appended in turn, stopping at one too far left. */
  method Spell(units: seq<string>, str: string) returns (r: Option<string>)
    ensures r == Spelled(units, str, |str|)
  {
    var out := "";
    for i := 0 to |str|
      invariant Spelled(units, str, i) == Some(out)
    {
      var a := str[i];
      if a == '0' {
        assert Piece(units, str, i) == Some("零");
        out := out + "零";
        continue;
      }
      var index := |str| - 1 - i;
      if index < |units| {
        var a_n := DigitOf(a);
        assert Piece(units, str, i) == Some(NumberAn2cn[a_n] + units[index]);
        assert out + NumberAn2cn[a_n] + units[index] == out + (NumberAn2cn[a_n] + units[index]);
        out := out + NumberAn2cn[a_n] + units[index];
      } else {
        SpelledNonePersists(units, str, i + 1);
        return None;
      }
    }
    return Some(out);
  }

  /** Spelling fails exactly when a character other than '0' sits |units| or more places from the right. */
  lemma {:induction false} SpelledFails(units: seq<string>, str: string, k: nat)
    requires k <= |str|
    ensures Spelled(units, str, k).None? <==> exists i :: 0 <= i < k && str[i] != '0' && |str| - 1 - i >= |units|
    decreases k
  {
    if k > 0 {
      SpelledFails(units, str, k - 1);
    }
  }

  /** An2cn fails exactly for numbers whose decimal text has 15 or more characters (including a minus sign). */
  lemma An2cnTooLarge(an: Strconv.Int64)
    ensures An2cnWith(UnitAn2cn, an).Err? <==> |Strconv.Itoa(an)| >= 15
    ensures An2cnWith(UnitAn2cnAsWritten, an).Err? <==> |Strconv.Itoa(an)| >= 15
  {
    var str := Strconv.Itoa(an);
    SpelledFails(UnitAn2cn, str, |str|);
    SpelledFails(UnitAn2cnAsWritten, str, |str|);
    if |str| >= 15 {
      assert str[0] != '0' && |str| - 1 - 0 >= 14;
    }
  }

  // ---------------------------------------------------------------------------
  // Powers of ten: An2cn followed by Cn2an
  // ---------------------------------------------------------------------------

  /** The decimal text of 10^p is a one followed by p zeros. */
  lemma {:induction false} NatTextPow(p: nat)
    ensures Strconv.NatText(Pow(10, p)) == "1" + Repeat('0', p)
    decreases p
  {
    if p > 0 {
      NatTextPow(p - 1);
      var n := Pow(10, p);
      assert n / 10 == Pow(10, p - 1) && n % 10 == 0;
      assert n >= 10 by { PowPositive(p - 1); }
    }
  }

  lemma {:induction false} PowPositive(p: nat)
    ensures Pow(10, p) >= 1
    decreases p
  {
    if p > 0 {
      PowPositive(p - 1);
    }
  }

  /** Spelling one followed by p zeros: the digit with its unit, then one "零" per zero. */
  lemma {:induction false} SpelledPower(units: seq<string>, p: nat, k: nat)
    requires p < |units| && 1 <= k <= p + 1
    ensures Spelled(units, "1" + Repeat('0', p), k) == Some("一" + units[p] + Repeat('零', k - 1))
    decreases k
  {
    var str := "1" + Repeat('0', p);
    if k == 1 {
      assert Piece(units, str, 0) == Some("一" + units[p]);
      assert "" + ("一" + units[p]) == "一" + units[p] + Repeat('零', 0);
    } else {
      SpelledPower(units, p, k - 1);
      assert str[k - 1] == '0';
      assert Piece(units, str, k - 1) == Some("零");
      assert "一" + units[p] + Repeat('零', k - 2) + "零" == "一" + units[p] + Repeat('零', k - 1);
    }
  }

  predicate NoZeroChar(s: string) {
    '零' !in s
  }

  /** Collapsing leaves a text without "零" untouched, and a run of "零" becomes one. */
  lemma {:induction false} CollapseAfter(x: string, m: nat)
    requires NoZeroChar(x)
    ensures CollapseZeros(x + Repeat('零', m)) == x + (if m == 0 then "" else "零")
    decreases |x| + m
  {
    var s := x + Repeat('零', m);
    var z := if m == 0 then "" else "零";
    if x != [] {
      if |s| >= 2 {
        assert s[0] == x[0] != '零';
        assert s[1..] == x[1..] + Repeat('零', m);
        assert NoZeroChar(x[1..]) by {
          assert forall c :: c in x[1..] ==> c in x;
        }
        CollapseAfter(x[1..], m);
        assert CollapseZeros(s) == [x[0]] + (x[1..] + z);
        assert [x[0]] + (x[1..] + z) == x + z;
      } else {
        assert s == x + z;
      }
    } else if m >= 2 {
      assert s == Repeat('零', m) && s[1..] == x + Repeat('零', m - 1);
      assert s[0] == '零' && s[1] == '零';
      CollapseAfter(x, m - 1);
    } else {
      assert s == z;
    }
  }

  /** A power of ten below 10^|units| is spelled as "一" and the unit of its position. */
  lemma An2cnPower(units: seq<string>, p: nat)
    requires p < |units| && NoZeroChar(units[p])
    ensures An2cnWith(units, Pow(10, p)) == Ok("一" + units[p])
  {
    PowPositive(p);
    NatTextPow(p);
    var str := Strconv.Itoa(Pow(10, p));
    assert str == "1" + Repeat('0', p);
    SpelledPower(units, p, p + 1);
    var x := "一" + units[p];
    assert NoZeroChar(x);
    assert Spelled(units, str, |str|) == Some(x + Repeat('零', p));
    CollapseAfter(x, p);
    var c := x + (if p == 0 then "" else "零");
    assert TrimZeros(c) == x by {
      assert x[0] != '零' && x[|x| - 1] != '零';
      if p > 0 {
        assert c[..|c| - 1] == x;
      }
    }
  }

  /** Every character of l is a key of the table w (stated recursively, from the end, as Read scans). */
  predicate InTable(w: map<char, nat>, l: seq<char>)
    decreases |l|
  {
    l == [] || (InTable(w, l[..|l| - 1]) && l[|l| - 1] in w)
  }

  lemma {:induction false} InTableAt(w: map<char, nat>, l: seq<char>)
    ensures InTable(w, l) <==> forall i :: 0 <= i < |l| ==> l[i] in w
    decreases |l|
  {
    if l != [] {
      var init := l[..|l| - 1];
      InTableAt(w, init);
      assert forall i :: 0 <= i < |init| ==> init[i] == l[i];
    }
  }

  /** No character is both a digit and a unit. */
  lemma UnitsAreNotDigits(c: char)
    requires c in UnitCn2an
    ensures c !in NumberCn2an && c != '零'
  {
  }

  /** The product of the weights of a list of table characters. */
  function Product(w: map<char, nat>, l: seq<char>): nat
    requires InTable(w, l)
    decreases |l|
  {
    if l == [] then 1 else Product(w, l[..|l| - 1]) * w[l[|l| - 1]]
  }

  /** A list of units alone scans to a weight equal to the product of its units. */
  lemma {:induction false} ReadUnits(l: seq<char>)
    requires InTable(UnitCn2an, l)
    ensures Read(l) == Ok(Scan(0, Product(UnitCn2an, l), l != []))
    decreases |l|
  {
    if l != [] {
      ReadUnits(l[..|l| - 1]);
      UnitsAreNotDigits(l[|l| - 1]);
    }
  }

  /** "一" followed by units reads as the product of the units. */
  lemma Cn2anOneUnits(u: string)
    requires InTable(UnitCn2an, Reverse(u))
    ensures Cn2anOf(['一'] + u) == Ok(Product(UnitCn2an, Reverse(u)))
  {
    var rev := Reverse(u);
    ReadUnits(rev);
    ReverseCons('一', u);
    var l := rev + ['一'];
    assert l[..|l| - 1] == rev;
    assert Read(l) == Ok(Scan(Product(UnitCn2an, rev), Product(UnitCn2an, rev) * 10, false));
  }

  /** A text whose reversal is made of unit characters contains no "零". */
  lemma NoZeroUnits(u: string)
    requires InTable(UnitCn2an, Reverse(u))
    ensures NoZeroChar(u)
  {
    var rev := Reverse(u);
    ReverseAt(u);
    InTableAt(UnitCn2an, rev);
    forall i | 0 <= i < |u| ensures u[i] != '零' {
      assert u[i] == rev[|u| - 1 - i];
      UnitsAreNotDigits(u[i]);
    }
  }

  /** What the round trip needs of a unit-table entry: unit characters only, whose weights multiply to x. */
  predicate UnitEntry(u: string, x: nat) {
    InTable(UnitCn2an, Reverse(u)) && Product(UnitCn2an, Reverse(u)) == x
  }

  lemma {:induction false} PowAdd(a: nat, b: nat)
    ensures Pow(10, a + b) == Pow(10, a) * Pow(10, b)
    decreases a
  {
    if a > 0 {
      PowAdd(a - 1, b);
    }
  }

  lemma {:induction false} ProductAppend(w: map<char, nat>, l: seq<char>, m: seq<char>)
    requires InTable(w, l) && InTable(w, m)
    ensures InTable(w, l + m) && Product(w, l + m) == Product(w, l) * Product(w, m)
    decreases |m|
  {
    if m == [] {
      assert l + m == l;
    } else {
      var init := m[..|m| - 1];
      assert (l + m)[..|l + m| - 1] == l + init;
      ProductAppend(w, l, init);
    }
  }

  /** A single unit character whose weight is 10^e. */
  lemma UnitOne(c: char, e: nat)
    requires c in UnitCn2an && UnitCn2an[c] == Pow(10, e)
    ensures UnitEntry([c], Pow(10, e))
  {
    assert Reverse([c]) == [c];
    assert [c][..0] == [];
  }

  /** Units written one after the other multiply their weights. */
  lemma UnitConcat(u: string, v: string, a: nat, b: nat)
    requires UnitEntry(u, Pow(10, a)) && UnitEntry(v, Pow(10, b))
    ensures UnitEntry(u + v, Pow(10, a + b))
  {
    ReverseAppend(u, v);
    ProductAppend(UnitCn2an, Reverse(v), Reverse(u));
    PowAdd(b, a);
  }

  /** The entries made of one unit character, or none. */
  lemma UnitTableSingle(p: nat, c: char)
    requires p < |UnitAn2cn| && UnitAn2cn[p] == [c] && c in UnitCn2an && UnitCn2an[c] == Pow(10, p)
    ensures UnitEntry(UnitAn2cn[p], Pow(10, p))
  {
    UnitOne(c, p);
  }

  lemma UnitTable0()
    ensures UnitEntry(UnitAn2cn[0], Pow(10, 0))
  {
    assert Reverse(UnitAn2cn[0]) == [];
  }

  lemma UnitTable1()
    ensures UnitEntry(UnitAn2cn[1], Pow(10, 1))
  {
    assert UnitAn2cn[1] == ['十'];
    UnitTableSingle(1, '十');
  }

  lemma UnitTable2()
    ensures UnitEntry(UnitAn2cn[2], Pow(10, 2))
  {
    assert UnitAn2cn[2] == ['百'];
    UnitTableSingle(2, '百');
  }

  lemma UnitTable3()
    ensures UnitEntry(UnitAn2cn[3], Pow(10, 3))
  {
    assert UnitAn2cn[3] == ['千'];
    UnitTableSingle(3, '千');
  }

  lemma UnitTable4()
    ensures UnitEntry(UnitAn2cn[4], Pow(10, 4))
  {
    assert UnitAn2cn[4] == ['万'];
    UnitTableSingle(4, '万');
  }

  lemma UnitTable8()
    ensures UnitEntry(UnitAn2cn[8], Pow(10, 8))
  {
    assert UnitAn2cn[8] == ['亿'];
    UnitTableSingle(8, '亿');
  }

  lemma UnitTable5()
    ensures UnitEntry(UnitAn2cn[5], Pow(10, 5))
  {
    UnitOne('十', 1);
    UnitOne('万', 4);
    UnitConcat("十", "万", 1, 4);
  }

  lemma UnitTable6()
    ensures UnitEntry(UnitAn2cn[6], Pow(10, 6))
  {
    UnitOne('百', 2);
    UnitOne('万', 4);
    UnitConcat("百", "万", 2, 4);
  }

  lemma UnitTable7()
    ensures UnitEntry(UnitAn2cn[7], Pow(10, 7))
  {
    UnitOne('千', 3);
    UnitOne('万', 4);
    UnitConcat("千", "万", 3, 4);
  }

  lemma UnitTable9()
    ensures UnitEntry(UnitAn2cn[9], Pow(10, 9))
  {
    UnitOne('十', 1);
    UnitOne('亿', 8);
    UnitConcat("十", "亿", 1, 8);
  }

  lemma UnitTable10()
    ensures UnitEntry(UnitAn2cn[10], Pow(10, 10))
  {
    UnitOne('百', 2);
    UnitOne('亿', 8);
    UnitConcat("百", "亿", 2, 8);
  }

  lemma UnitTable11()
    ensures UnitEntry(UnitAn2cn[11], Pow(10, 11))
  {
    UnitOne('千', 3);
    UnitOne('亿', 8);
    UnitConcat("千", "亿", 3, 8);
  }

  lemma UnitTable12()
    ensures UnitEntry(UnitAn2cn[12], Pow(10, 12))
  {
    UnitOne('万', 4);
    UnitOne('亿', 8);
    UnitConcat("万", "亿", 4, 8);
  }

  lemma UnitTable13()
    ensures UnitEntry(UnitAn2cn[13], Pow(10, 13))
  {
    UnitTable1();
    UnitTable12();
    Spelling13();
    UnitTableConcat(1, 12, 13);
  }

  lemma Spelling13()
    ensures UnitAn2cn[13] == UnitAn2cn[1] + UnitAn2cn[12]
  {
    assert UnitAn2cn[13] == "十万亿" && UnitAn2cn[1] == "十" && UnitAn2cn[12] == "万亿";
  }

  /** An entry spelled as two shorter entries weighs their product. */
  lemma UnitTableConcat(p: nat, q: nat, r: nat)
    requires r == p + q < |UnitAn2cn| && UnitAn2cn[r] == UnitAn2cn[p] + UnitAn2cn[q]
    requires UnitEntry(UnitAn2cn[p], Pow(10, p)) && UnitEntry(UnitAn2cn[q], Pow(10, q))
    ensures UnitEntry(UnitAn2cn[r], Pow(10, r))
  {
    UnitConcat(UnitAn2cn[p], UnitAn2cn[q], p, q);
  }

  /** Each entry of the corrected unit table is made of unit characters whose product is 10^p. */
  lemma UnitTableWeight(p: nat)
    requires p < |UnitAn2cn|
    ensures UnitEntry(UnitAn2cn[p], Pow(10, p))
  {
    if p == 0 { UnitTable0(); } else if p == 1 { UnitTable1(); } else if p == 2 { UnitTable2(); }
    else if p == 3 { UnitTable3(); } else if p == 4 { UnitTable4(); } else if p == 8 { UnitTable8(); }
    else if p == 5 { UnitTable5(); } else if p == 6 { UnitTable6(); } else if p == 7 { UnitTable7(); }
    else if p == 9 { UnitTable9(); } else if p == 10 { UnitTable10(); } else if p == 11 { UnitTable11(); }
    else if p == 12 { UnitTable12(); } else { UnitTable13(); }
  }

  /** An2cn followed by Cn2an gives back every power of ten it can spell. */
  lemma PowerRoundTrip(p: nat)
    requires p < |UnitAn2cn|
    ensures An2cnWith(UnitAn2cn, Pow(10, p)) == Ok("一" + UnitAn2cn[p])
    ensures Cn2anOf("一" + UnitAn2cn[p]) == Ok(Pow(10, p))
  {
    UnitTableWeight(p);
    NoZeroUnits(UnitAn2cn[p]);
    An2cnPower(UnitAn2cn, p);
    Cn2anOneUnits(UnitAn2cn[p]);
  }

  /** With the table as the source declares it, 10^13 is spelled "一亿亿", which reads back as 10^16. */
  lemma AsWrittenPowerMisread()
    ensures An2cnWith(UnitAn2cnAsWritten, Pow(10, 13)) == Ok("一" + UnitAn2cnAsWritten[13])
    ensures Cn2anOf("一" + UnitAn2cnAsWritten[13]) == Ok(Pow(10, 16))
    ensures Pow(10, 16) != Pow(10, 13)
  {
    UnitOne('亿', 8);
    UnitConcat("亿", "亿", 8, 8);
    NoZeroUnits(UnitAn2cnAsWritten[13]);
    An2cnPower(UnitAn2cnAsWritten, 13);
    Cn2anOneUnits(UnitAn2cnAsWritten[13]);
  }
  // ---------------------------------------------------------------------------
  // Every number An2cn spells: An2cn followed by Cn2an
  // ---------------------------------------------------------------------------

  /** A unit table whose entry p is made of unit characters whose weights multiply to 10^p. */
  predicate Weighted(units: seq<string>) {
    forall p :: 0 <= p < |units| ==> UnitEntry(units[p], Pow(10, p))
  }

  /** The corrected table is weighted; the table as written is not (AsWrittenPowerMisread). */
  lemma {:induction false} UnitTableWeighted()
    ensures Weighted(UnitAn2cn)
  {
    forall p | 0 <= p < |UnitAn2cn| ensures UnitEntry(UnitAn2cn[p], Pow(10, p)) {
      UnitTableWeight(p);
    }
  }

  /** The piece An2cn appends for a character of the decimal text that sits p places from the right. */
  function PieceAt(names: seq<string>, units: seq<string>, c: char, p: nat): string
    requires |names| == 10 && p < |units|
  {
    if c == '0' then "零" else names[DigitOf(c)] + units[p]
  }

  /** The pieces An2cn appends for the characters of a decimal text that fits the unit table, in order. */
  function PieceList(names: seq<string>, units: seq<string>, str: string): (r: seq<string>)
    requires |names| == 10 && |str| <= |units|
    ensures |r| == |str|
  {
    seq(|str|, i requires 0 <= i < |str| => PieceAt(names, units, str[i], |str| - 1 - i))
  }

  /** The concatenation of a list of texts, joined from the end as the loop of An2cn appends them. */
  function Join(ps: seq<string>): string
    decreases |ps|
  {
    if ps == [] then "" else Join(ps[..|ps| - 1]) + ps[|ps| - 1]
  }

  /** The text the loop of An2cn builds for a decimal text that fits the unit table, piece by piece from the left. */
  function Raw(names: seq<string>, units: seq<string>, str: string): string
    requires |names| == 10 && |str| <= |units|
  {
    if str == [] then "" else PieceAt(names, units, str[0], |str| - 1) + Raw(names, units, str[1..])
  }

  /** A text without its leading '0' characters: the suffix that starts at the first other character. */
  function StripZeros(s: string): (r: string)
    ensures |r| <= |s|
    ensures r == [] || r[0] != '0'
  {
    if s != [] && s[0] == '0' then StripZeros(s[1..]) else s
  }

  /**
    The text An2cn returns for a decimal text without leading zeros: each
    nonzero digit followed by the unit of its place, with a single "零" where
    zeros separate two of them and nothing for the zeros at the right end.
   */
  function Canon(names: seq<string>, units: seq<string>, str: string): string
    requires |names| == 10 && |str| <= |units|
    decreases |str|
  {
    if str == [] then ""
    else
      var rest := StripZeros(str[1..]);
      PieceAt(names, units, str[0], |str| - 1)
      + (if rest == [] then "" else (if |rest| < |str| - 1 then "零" else "") + Canon(names, units, rest))
  }

  /** When the decimal text fits the unit table, the loop of An2cn never fails and joins the first k pieces. */
  lemma {:induction false} SpelledPieces(units: seq<string>, str: string, k: nat)
    requires k <= |str| <= |units|
    ensures Spelled(units, str, k) == Some(Join(PieceList(NumberAn2cn, units, str)[..k]))
    decreases k
  {
    var ps := PieceList(NumberAn2cn, units, str);
    if k > 0 {
      SpelledPieces(units, str, k - 1);
      assert ps[..k][..k - 1] == ps[..k - 1];
    } else {
      assert ps[..0] == [];
    }
  }

  /** A joined list is its first text, then the rest joined. */
  lemma {:induction false} JoinFront(ps: seq<string>)
    requires ps != []
    ensures Join(ps) == ps[0] + Join(ps[1..])
    decreases |ps|
  {
    if |ps| == 1 {
      assert ps[..0] == [] && ps[1..] == [];
    } else {
      var init, last, tail := ps[..|ps| - 1], ps[|ps| - 1], ps[1..];
      JoinFront(init);
      assert init[0] == ps[0];
      assert init[1..] == tail[..|tail| - 1];
      assert tail[|tail| - 1] == last;
      calc {
        Join(ps);
        Join(init) + last;
        (init[0] + Join(init[1..])) + last;
        ps[0] + (Join(tail[..|tail| - 1]) + tail[|tail| - 1]);
        ps[0] + Join(tail);
      }
    }
  }

  /** Raw joins the pieces of the decimal text. */
  lemma {:induction false} RawJoin(names: seq<string>, units: seq<string>, str: string)
    requires |names| == 10 && |str| <= |units|
    ensures Raw(names, units, str) == Join(PieceList(names, units, str))
    decreases |str|
  {
    var ps := PieceList(names, units, str);
    if str == [] {
      assert ps == [];
    } else {
      JoinFront(ps);
      assert ps[1..] == PieceList(names, units, str[1..]);
      RawJoin(names, units, str[1..]);
    }
  }

  /** The loop of An2cn builds Raw. */
  lemma {:induction false} SpelledRaw(units: seq<string>, str: string)
    requires |str| <= |units|
    ensures Spelled(units, str, |str|) == Some(Raw(NumberAn2cn, units, str))
  {
    SpelledPieces(units, str, |str|);
    assert PieceList(NumberAn2cn, units, str)[..|str|] == PieceList(NumberAn2cn, units, str);
    RawJoin(NumberAn2cn, units, str);
  }

  /** A run of m + 1 "零" is one "零" followed by a run of m. */
  lemma {:induction false} RepeatZeroCons(m: nat)
    ensures Repeat('零', m + 1) == "零" + Repeat('零', m)
  {
  }

  /** Leading '0' characters are spelled as as many "零". */
  lemma {:induction false} RawZeros(names: seq<string>, units: seq<string>, s: string)
    requires |names| == 10 && |s| <= |units|
    ensures Raw(names, units, s) == Repeat('零', |s| - |StripZeros(s)|) + Raw(names, units, StripZeros(s))
    decreases |s|
  {
    var r := StripZeros(s);
    if s != [] && s[0] == '0' {
      var t := s[1..];
      assert r == StripZeros(t);
      var m := |t| - |r|;
      assert PieceAt(names, units, s[0], |s| - 1) == "零";
      RawZeros(names, units, t);
      RepeatZeroCons(m);
      ConcatAssociates("零", Repeat('零', m), Raw(names, units, r));
      calc {
        Raw(names, units, s);
        "零" + Raw(names, units, t);
        "零" + (Repeat('零', m) + Raw(names, units, r));
        ("零" + Repeat('零', m)) + Raw(names, units, r);
        Repeat('零', m + 1) + Raw(names, units, r);
      }
      assert |s| - |r| == m + 1;
    } else {
      assert r == s;
      calc {
        Repeat('零', |s| - |r|) + Raw(names, units, r);
        [] + Raw(names, units, s);
        Raw(names, units, s);
      }
    }
  }

  /** A table of digit names: each nonzero digit is one character that numberCn2an reads back as that digit. */
  predicate Named(names: seq<string>) {
    && |names| == 10
    && forall d :: 1 <= d <= 9 ==>
         |names[d]| == 1 && names[d][0] != '零' && names[d][0] in NumberCn2an && NumberCn2an[names[d][0]] == d
  }

  /** numberAn2cn is such a table. */
  lemma {:induction false} NumberTableNamed()
    ensures Named(NumberAn2cn)
  {
  }

  /** The piece of a nonzero digit: its character, then unit characters whose weights multiply to 10^p. */
  lemma {:induction false} PieceShape(names: seq<string>, units: seq<string>, c: char, p: nat)
    requires Named(names) && Weighted(units) && Strconv.IsDigit(c) && c != '0' && p < |units|
    ensures var d := DigitOf(c);
      && 1 <= d <= 9 && |names[d]| == 1
      && PieceAt(names, units, c, p) == [names[d][0]] + units[p]
      && names[d][0] in NumberCn2an && NumberCn2an[names[d][0]] == d
    ensures NoZeroChar(PieceAt(names, units, c, p)) && PieceAt(names, units, c, p)[0] != '零'
    ensures UnitEntry(units[p], Pow(10, p))
  {
    assert UnitEntry(units[p], Pow(10, p));
    NoZeroUnits(units[p]);
  }

  /** Collapsing does not touch a prefix without "零". */
  lemma {:induction false} CollapseFree(x: string, y: string)
    requires NoZeroChar(x)
    ensures CollapseZeros(x + y) == x + CollapseZeros(y)
    decreases |x|
  {
    if x != [] {
      var s := x + y;
      if |s| >= 2 {
        assert s[1..] == x[1..] + y;
        CollapseFree(x[1..], y);
      }
    } else {
      assert x + y == y;
    }
  }

  /** A run of "零" in front of a text that does not start with "零" collapses to one. */
  lemma {:induction false} CollapseRun(m: nat, y: string)
    requires y == [] || y[0] != '零'
    ensures CollapseZeros(Repeat('零', m) + y) == (if m == 0 then "" else "零") + CollapseZeros(y)
    decreases m
  {
    var s := Repeat('零', m) + y;
    if m == 0 {
      assert s == y;
    } else if m == 1 {
      assert s == ['零'] + y;
      if |s| >= 2 {
        assert s[1..] == y;
      }
    } else {
      assert s[1..] == Repeat('零', m - 1) + y;
      CollapseRun(m - 1, y);
    }
  }

  /** After a prefix that does not start with "零", trimming a text that does not either only trims its end. */
  lemma {:induction false} TrimAfter(x: string, y: string)
    requires x != [] && x[0] != '零' && y != [] && y[0] != '零'
    ensures TrimZeros(x + y) == x + TrimZeros(y)
    decreases |y|
  {
    var s := x + y;
    if y[|y| - 1] == '零' {
      var y' := y[..|y| - 1];
      assert s[..|s| - 1] == x + y';
      TrimAfter(x, y');
    }
  }

  /** Trimming a text with no "零" at either end, and one followed by a single "零". */
  lemma {:induction false} TrimEnds(x: string)
    requires x != [] && x[0] != '零' && x[|x| - 1] != '零'
    ensures TrimZeros(x) == x && TrimZeros(x + "零") == x
  {
    var s := x + "零";
    assert s[..|s| - 1] == x;
  }

  /** The suffix left by StripZeros is made of digits when the text is. */
  lemma {:induction false} StripDigits(s: string)
    requires Strconv.AllDigits(s)
    ensures Strconv.AllDigits(StripZeros(s))
    decreases |s|
  {
    if s != [] && s[0] == '0' {
      assert Strconv.AllDigits(s[1..]) by {
        forall i | 0 <= i < |s| - 1 ensures Strconv.IsDigit(s[1..][i]) {
          assert s[1..][i] == s[i + 1];
        }
      }
      StripDigits(s[1..]);
    }
  }

  /** A piece that starts with something other than "零" and has no "零" in it. */
  predicate Clean(x: string) {
    x != [] && x[0] != '零' && NoZeroChar(x)
  }

  /** Every piece of a nonzero digit is clean. */
  predicate CleanPieces(names: seq<string>, units: seq<string>)
    requires |names| == 10
  {
    forall c, q :: Strconv.IsDigit(c) && c != '0' && 0 <= q < |units| ==> Clean(PieceAt(names, units, c, q))
  }

  /** Digit names and unit tables that read back give clean pieces. */
  lemma {:induction false} PiecesClean(names: seq<string>, units: seq<string>)
    requires Named(names) && Weighted(units)
    ensures CleanPieces(names, units)
  {
    forall c, q | Strconv.IsDigit(c) && c != '0' && 0 <= q < |units|
      ensures Clean(PieceAt(names, units, c, q))
    {
      PieceShape(names, units, c, q);
    }
  }

  /** What the loop of An2cn builds: the first piece, a "零" per zero that follows it, then the rest. */
  lemma {:induction false} RawSplit(names: seq<string>, units: seq<string>, str: string)
    requires |names| == 10 && 1 <= |str| <= |units|
    ensures var rest := StripZeros(str[1..]);
      Raw(names, units, str)
      == PieceAt(names, units, str[0], |str| - 1) + (Repeat('零', |str| - 1 - |rest|) + Raw(names, units, rest))
  {
    RawZeros(names, units, str[1..]);
  }

  /** Collapsing a clean piece, a run of "零" and a text that does not start with "零". */
  lemma {:induction false} CollapseSplit(s: string, p: string, z: nat, tail: string)
    requires s == p + (Repeat('零', z) + tail)
    requires Clean(p) && (tail == [] || tail[0] != '零')
    ensures CollapseZeros(s) == p + (if z == 0 then "" else "零") + CollapseZeros(tail)
  {
    CollapseFree(p, Repeat('零', z) + tail);
    CollapseRun(z, tail);
  }

  /** Raw of a text whose first piece is clean starts with that piece, so not with "零". */
  lemma {:induction false} RawHead(names: seq<string>, units: seq<string>, s: string)
    requires |names| == 10 && 1 <= |s| <= |units| && Clean(PieceAt(names, units, s[0], |s| - 1))
    ensures Raw(names, units, s) != [] && Raw(names, units, s)[0] != '零'
  {
  }

  /** Collapsing what the loop of An2cn builds: the first piece, one "零" for a run of zeros, then the rest collapsed. */
  lemma {:induction false} CollapseRaw(names: seq<string>, units: seq<string>, str: string)
    requires |names| == 10 && 1 <= |str| <= |units|
    requires Clean(PieceAt(names, units, str[0], |str| - 1))
    requires var rest := StripZeros(str[1..]); rest != [] ==> Clean(PieceAt(names, units, rest[0], |rest| - 1))
    ensures var rest := StripZeros(str[1..]);
      CollapseZeros(Raw(names, units, str))
      == PieceAt(names, units, str[0], |str| - 1)
         + (if |rest| < |str| - 1 then "零" else "")
         + (if rest == [] then "" else CollapseZeros(Raw(names, units, rest)))
  {
    var rest := StripZeros(str[1..]);
    var tail := Raw(names, units, rest);
    RawSplit(names, units, str);
    if rest != [] {
      RawHead(names, units, rest);
    }
    CollapseSplit(Raw(names, units, str), PieceAt(names, units, str[0], |str| - 1), |str| - 1 - |rest|, tail);
  }

  /** Trimming a clean piece, an optional "零" and a text that does not start with "零". */
  lemma {:induction false} TrimSplit(c: string, p: string, zero: string, after: string)
    requires c == p + zero + after
    requires Clean(p) && (zero == "" || zero == "零") && (after == [] || after[0] != '零')
    ensures TrimZeros(c) == p + (if after == [] then "" else zero + TrimZeros(after))
  {
    assert p[|p| - 1] in p;
    if after == [] {
      assert c == p + zero;
      TrimEnds(p);
    } else {
      assert (p + zero)[0] == p[0];
      TrimAfter(p + zero, after);
    }
  }

  /** Collapsing and trimming what the loop of An2cn builds gives Canon. */
  lemma {:induction false} CanonOf(names: seq<string>, units: seq<string>, str: string)
    requires |names| == 10 && CleanPieces(names, units) && Strconv.AllDigits(str) && |str| <= |units| && (str == [] || str[0] != '0')
    ensures TrimZeros(CollapseZeros(Raw(names, units, str))) == Canon(names, units, str)
    ensures str != [] ==> CollapseZeros(Raw(names, units, str)) != [] && CollapseZeros(Raw(names, units, str))[0] != '零'
    decreases |str|
  {
    if str != [] {
      var p := PieceAt(names, units, str[0], |str| - 1);
      var rest := StripZeros(str[1..]);
      var zero := if |rest| < |str| - 1 then "零" else "";
      var after := if rest == [] then "" else CollapseZeros(Raw(names, units, rest));
      assert Clean(p);
      StripDigits(str[1..]);
      if rest != [] {
        assert Clean(PieceAt(names, units, rest[0], |rest| - 1));
        CanonOf(names, units, rest);
      }
      CollapseRaw(names, units, str);
      TrimSplit(CollapseZeros(Raw(names, units, str)), p, zero, after);
    }
  }

  /** One more character after a successful scan is one Step. */
  lemma {:induction false} ReadSnoc(x: seq<char>, c: char)
    requires Read(x).Ok?
    ensures Read(x + [c]) == (match Step(Read(x).value, c) case None => Err(|x|) case Some(next) => Ok(next))
  {
    assert (x + [c])[..|x|] == x;
  }

  /** After a digit, a list of units read as the weight their product gives. */
  lemma {:induction false} ReadUnitsFrom(x: seq<char>, st: Scan, l: seq<char>)
    requires Read(x) == Ok(st) && !st.big && InTable(UnitCn2an, l) && l != []
    ensures Read(x + l) == Ok(Scan(st.out, Product(UnitCn2an, l), true))
    decreases |l|
  {
    var init, c := l[..|l| - 1], l[|l| - 1];
    assert x + l == (x + init) + [c];
    UnitsAreNotDigits(c);
    if init == [] {
      assert x + init == x;
      ReadSnoc(x, c);
    } else {
      ReadUnitsFrom(x, st, init);
      ReadSnoc(x + init, c);
    }
  }

  lemma {:induction false} PowAbove(k: nat)
    requires k > 0
    ensures Pow(10, k) >= 10
    decreases k
  {
    if k > 1 {
      PowAbove(k - 1);
    }
  }

  /** Reading a piece, a digit character and units of weight 10^k, after a scan that ended on a digit. */
  lemma {:induction false} ReadPiece(x: seq<char>, st: Scan, piece: string, d: nat, k: nat)
    requires Read(x) == Ok(st) && !st.big && (k == 0 ==> st == Start)
    requires piece != [] && piece[0] in NumberCn2an && NumberCn2an[piece[0]] == d && UnitEntry(piece[1..], Pow(10, k))
    ensures Read(x + Reverse(piece)) == Ok(Scan(st.out + d * Pow(10, k), Pow(10, k + 1), false))
  {
    var name, rev := piece[0], Reverse(piece[1..]);
    var y := x + rev;
    assert x + Reverse(piece) == y + [name] by {
      assert piece == [name] + piece[1..];
      ReverseCons(name, piece[1..]);
    }
    ReadWeight(x, st, rev, k);
    ReadDigitAfter(y, Read(y).value, name, d);
  }

  /** A digit read after a scan adds itself at the scan's weight and moves the weight up a place. */
  lemma ReadDigitAfter(y: seq<char>, mid: Scan, name: char, d: nat)
    requires Read(y) == Ok(mid) && name in NumberCn2an && NumberCn2an[name] == d
    ensures Read(y + [name]) == Ok(Scan(mid.out + d * mid.weight, mid.weight * 10, false))
  {
    ReadSnoc(y, name);
  }

  /** The units of a piece, read after a scan that ended on a digit, leave the total alone and set the weight 10^k. */
  lemma ReadWeight(x: seq<char>, st: Scan, rev: seq<char>, k: nat)
    requires Read(x) == Ok(st) && !st.big && (k == 0 ==> st == Start)
    requires InTable(UnitCn2an, rev) && Product(UnitCn2an, rev) == Pow(10, k)
    ensures Read(x + rev).Ok? && Read(x + rev).value.out == st.out && Read(x + rev).value.weight == Pow(10, k)
  {
    if rev == [] {
      if k > 0 {
        PowAbove(k);
      }
      assert x + rev == x;
    } else {
      ReadUnitsFrom(x, st, rev);
    }
  }

  /** Reading "零" adds nothing and moves the weight up one decimal place. */
  lemma {:induction false} ReadZero(x: seq<char>, st: Scan)
    requires Read(x) == Ok(st)
    ensures Read(x + ['零']) == Ok(Scan(st.out, st.weight * 10, false))
  {
    assert '零' in NumberCn2an && NumberCn2an['零'] == 0;
    ReadSnoc(x, '零');
  }

  /** Reading an optional "零" after a scan that ended on a digit. */
  lemma {:induction false} ReadZeroAfter(c: string, st: Scan, zero: string)
    requires Read(Reverse(c)) == Ok(st) && !st.big && (zero == "" || zero == "零")
    ensures Read(Reverse(zero + c)) == Ok(Scan(st.out, if zero == "" then st.weight else st.weight * 10, false))
  {
    ReverseAppend(zero, c);
    if zero == "" {
      assert zero + c == c;
    } else {
      assert Reverse(zero) == ['零'];
      ReadZero(Reverse(c), st);
    }
  }

  /** The piece of a nonzero digit c with q places after it is that digit's character, then units weighing 10^q. */
  predicate GoodPiece(names: seq<string>, units: seq<string>, c: char, q: nat)
    requires |names| == 10 && q < |units|
  {
    var piece := PieceAt(names, units, c, q);
    piece != [] && piece[0] in NumberCn2an && NumberCn2an[piece[0]] == DigitOf(c) && UnitEntry(piece[1..], Pow(10, q))
  }

  /** Every piece of a nonzero digit reads back as that digit times the weight of its place. */
  predicate ReadablePieces(names: seq<string>, units: seq<string>)
    requires |names| == 10
  {
    forall c, q :: Strconv.IsDigit(c) && c != '0' && 0 <= q < |units| ==> GoodPiece(names, units, c, q)
  }

  /** Digit names and unit tables that read back give readable pieces. */
  lemma {:induction false} PiecesReadable(names: seq<string>, units: seq<string>)
    requires Named(names) && Weighted(units)
    ensures ReadablePieces(names, units)
  {
    forall c, q | Strconv.IsDigit(c) && c != '0' && 0 <= q < |units|
      ensures GoodPiece(names, units, c, q)
    {
      PieceShape(names, units, c, q);
      var d := DigitOf(c);
      assert PieceAt(names, units, c, q)[1..] == units[q];
    }
  }

  lemma DigitsValueArith(a: int, p: int, v: int, e: int)
    ensures (a * p + v) * 10 + e == a * (10 * p) + (v * 10 + e)
  {
  }

  /** A leading digit c of a decimal text is worth c times ten to the number of digits after it. */
  lemma {:induction false} DigitsValueCons(c: char, s: string)
    requires Strconv.IsDigit(c) && Strconv.AllDigits(s)
    ensures Strconv.AllDigits([c] + s)
    ensures Strconv.DigitsValue([c] + s) == DigitOf(c) * Pow(10, |s|) + Strconv.DigitsValue(s)
    decreases |s|
  {
    var t := [c] + s;
    assert forall i :: 0 <= i < |t| ==> Strconv.IsDigit(t[i]) by {
      forall i | 0 <= i < |t| ensures Strconv.IsDigit(t[i]) {
        if i > 0 { assert t[i] == s[i - 1]; }
      }
    }
    if s != [] {
      var init := s[..|s| - 1];
      assert Strconv.AllDigits(init) by {
        forall i | 0 <= i < |init| ensures Strconv.IsDigit(init[i]) { assert init[i] == s[i]; }
      }
      DigitsValueCons(c, init);
      assert t[..|t| - 1] == [c] + init;
      var e := s[|s| - 1] as int - '0' as int;
      assert Strconv.DigitsValue(t) == Strconv.DigitsValue([c] + init) * 10 + e;
      assert Strconv.DigitsValue(s) == Strconv.DigitsValue(init) * 10 + e;
      assert Pow(10, |s|) == 10 * Pow(10, |init|);
      DigitsValueArith(DigitOf(c), Pow(10, |init|), Strconv.DigitsValue(init), e);
    } else {
      assert t[..0] == [];
    }
  }

  /** Leading zeros do not change the value of a decimal text. */
  lemma {:induction false} DigitsValueStrip(s: string)
    requires Strconv.AllDigits(s)
    ensures Strconv.AllDigits(StripZeros(s)) && Strconv.DigitsValue(StripZeros(s)) == Strconv.DigitsValue(s)
    decreases |s|
  {
    StripDigits(s);
    if s != [] && s[0] == '0' {
      var t := s[1..];
      assert Strconv.AllDigits(t) by {
        forall i | 0 <= i < |t| ensures Strconv.IsDigit(t[i]) { assert t[i] == s[i + 1]; }
      }
      assert [s[0]] + t == s;
      DigitsValueCons(s[0], t);
      DigitsValueStrip(t);
    }
  }

  /** Canon of a nonempty text: the first piece, then nothing or an optional "零" and Canon of the rest. */
  lemma {:induction false} CanonFront(names: seq<string>, units: seq<string>, str: string)
    requires |names| == 10 && 1 <= |str| <= |units|
    ensures var rest := StripZeros(str[1..]);
      Canon(names, units, str)
      == PieceAt(names, units, str[0], |str| - 1)
         + (if rest == [] then "" else (if |rest| < |str| - 1 then "零" else "") + Canon(names, units, rest))
  {
  }

  /** What Cn2an reads after the pieces that follow the first one: nothing, or Canon of the rest and an optional "零". */
  lemma {:induction false} ReadAfterFirst(names: seq<string>, units: seq<string>, str: string)
    requires |names| == 10 && ReadablePieces(names, units)
    requires Strconv.AllDigits(str) && 1 <= |str| <= |units| && str[0] != '0'
    ensures var rest := StripZeros(str[1..]);
      var tailPart := if rest == [] then "" else (if |rest| < |str| - 1 then "零" else "") + Canon(names, units, rest);
      exists w :: Read(Reverse(tailPart)) == Ok(Scan(Strconv.DigitsValue(str[1..]), w, false))
                  && (|str| == 1 ==> Read(Reverse(tailPart)) == Ok(Start))
    decreases |str|, 0
  {
    var t := str[1..];
    var rest := StripZeros(t);
    var zero := if |rest| < |str| - 1 then "零" else "";
    DigitsTail(str);
    DigitsValueStrip(t);
    if rest == [] {
      assert Reverse("") == [];
      assert Read(Reverse("")) == Ok(Scan(Strconv.DigitsValue(t), 1, false));
    } else {
      StripDigits(t);
      ReadCanon(names, units, rest);
      var w := Pow(10, |rest|);
      ReadZeroAfter(Canon(names, units, rest), Scan(Strconv.DigitsValue(rest), w, false), zero);
    }
  }

  /** Cn2an reads Canon back as the value of the decimal text, ending on a digit with the next decimal weight. */
  lemma {:induction false} ReadCanon(names: seq<string>, units: seq<string>, str: string)
    requires |names| == 10 && ReadablePieces(names, units)
    requires Strconv.AllDigits(str) && |str| <= |units| && (str == [] || str[0] != '0')
    ensures Read(Reverse(Canon(names, units, str))) == Ok(Scan(Strconv.DigitsValue(str), Pow(10, |str|), false))
    decreases |str|, 1
  {
    if str != [] {
      ReadAfterFirst(names, units, str);
      var rest := StripZeros(str[1..]);
      var tailPart := if rest == [] then "" else (if |rest| < |str| - 1 then "零" else "") + Canon(names, units, rest);
      var w :| Read(Reverse(tailPart)) == Ok(Scan(Strconv.DigitsValue(str[1..]), w, false))
               && (|str| == 1 ==> Read(Reverse(tailPart)) == Ok(Start));
      ReadCanonFront(names, units, str, w);
    } else {
      assert Canon(names, units, str) == [];
      assert Reverse(Canon(names, units, str)) == [];
    }
  }

  /** The step of ReadCanon: the first digit's piece, read after the rest. */
  lemma ReadCanonFront(names: seq<string>, units: seq<string>, str: string, w: int)
    requires |names| == 10 && ReadablePieces(names, units)
    requires Strconv.AllDigits(str) && 1 <= |str| <= |units| && str[0] != '0'
    requires var rest := StripZeros(str[1..]);
      var tailPart := if rest == [] then "" else (if |rest| < |str| - 1 then "零" else "") + Canon(names, units, rest);
      && Read(Reverse(tailPart)) == Ok(Scan(Strconv.DigitsValue(str[1..]), w, false))
      && (|str| == 1 ==> Read(Reverse(tailPart)) == Ok(Start))
    ensures Read(Reverse(Canon(names, units, str))) == Ok(Scan(Strconv.DigitsValue(str), Pow(10, |str|), false))
  {
    var k := |str| - 1;
    var rest := StripZeros(str[1..]);
    var tailPart := if rest == [] then "" else (if |rest| < k then "零" else "") + Canon(names, units, rest);
    assert Strconv.IsDigit(str[0]);
    assert Canon(names, units, str) == PieceAt(names, units, str[0], k) + tailPart by {
      CanonFront(names, units, str);
    }
    DigitsTail(str);
    ReadJoined(names, units, str[0], k, Canon(names, units, str), tailPart,
               Scan(Strconv.DigitsValue(str[1..]), w, false), Strconv.DigitsValue(str), Pow(10, |str|));
  }

  /** A good piece written in front of a text is read after it, once both are reversed. */
  lemma ReadJoined(names: seq<string>, units: seq<string>, c: char, k: nat, canon: string, tailPart: string,
                   st: Scan, out: int, weight: int)
    requires |names| == 10 && ReadablePieces(names, units) && Strconv.IsDigit(c) && c != '0' && k < |units|
    requires canon == PieceAt(names, units, c, k) + tailPart
    requires Read(Reverse(tailPart)) == Ok(st) && !st.big && (k == 0 ==> st == Start)
    requires out == st.out + DigitOf(c) * Pow(10, k) && weight == Pow(10, k + 1)
    ensures Read(Reverse(canon)) == Ok(Scan(out, weight, false))
  {
    var piece := PieceAt(names, units, c, k);
    assert GoodPiece(names, units, c, k);
    ReverseAppend(piece, tailPart);
    ReadPiece(Reverse(tailPart), st, piece, DigitOf(c), k);
  }

  lemma DigitsTail(str: string)
    requires Strconv.AllDigits(str) && str != []
    ensures Strconv.AllDigits(str[1..])
    ensures Strconv.DigitsValue(str) == DigitOf(str[0]) * Pow(10, |str| - 1) + Strconv.DigitsValue(str[1..])
  {
    var t := str[1..];
    assert Strconv.AllDigits(t) by {
      forall i | 0 <= i < |t| ensures Strconv.IsDigit(t[i]) { assert t[i] == str[i + 1]; }
    }
    assert [str[0]] + t == str;
    DigitsValueCons(str[0], t);
  }

  /** A number below 10^k has at most k decimal digits. */
  lemma {:induction false} NatTextLength(n: nat, k: nat)
    requires 0 < n < Pow(10, k)
    ensures |Strconv.NatText(n)| <= k
    decreases n
  {
    if n >= 10 {
      assert k > 0;
      assert n / 10 < Pow(10, k - 1);
      NatTextLength(n / 10, k - 1);
    }
  }

  /** The decimal text of a positive number does not start with '0'. */
  lemma NatTextLeading(n: nat)
    requires n > 0
    ensures Strconv.NatText(n)[0] != '0'
  {
  }

  /** The corrected tables spell pieces that are clean and read back. */
  lemma {:induction false} CorrectedTablesGood()
    ensures CleanPieces(NumberAn2cn, UnitAn2cn) && ReadablePieces(NumberAn2cn, UnitAn2cn)
  {
    NumberTableNamed();
    UnitTableWeighted();
    PiecesClean(NumberAn2cn, UnitAn2cn);
    PiecesReadable(NumberAn2cn, UnitAn2cn);
  }

  /** What An2cn returns for a positive number it can spell is Canon of its decimal text. */
  lemma {:induction false} An2cnCanon(n: nat)
    requires 0 < n < Pow(10, 14)
    ensures var str := Strconv.NatText(n);
      && |str| <= |UnitAn2cn| && str[0] != '0'
      && An2cnWith(UnitAn2cn, n) == Ok(Canon(NumberAn2cn, UnitAn2cn, str))
      && TrimZeros(CollapseZeros(Raw(NumberAn2cn, UnitAn2cn, str))) == Canon(NumberAn2cn, UnitAn2cn, str)
      && CollapseZeros(Raw(NumberAn2cn, UnitAn2cn, str)) != []
      && CollapseZeros(Raw(NumberAn2cn, UnitAn2cn, str))[0] != '零'
  {
    var str := Strconv.NatText(n);
    NatTextLength(n, 14);
    NatTextLeading(n);
    CorrectedTablesGood();
    SpelledRaw(UnitAn2cn, str);
    CanonOf(NumberAn2cn, UnitAn2cn, str);
  }

  /** An2cn followed by Cn2an gives back every number An2cn can spell: zero and 1 .. 10^14 - 1. */
  lemma {:induction false} An2cnRoundTrip(n: nat)
    requires n < Pow(10, 14)
    ensures An2cnWith(UnitAn2cn, n).Ok?
    ensures Cn2anOf(An2cnWith(UnitAn2cn, n).value) == Ok(n)
  {
    if n == 0 {
      assert Strconv.NatText(0) == "0";
      assert Piece(UnitAn2cn, "0", 0) == Some("零");
      assert "" + "零" == "零";
      assert Spelled(UnitAn2cn, "0", 1) == Some("零");
      assert CollapseZeros("零") == "零";
      assert TrimZeros("零") == "";
      assert Reverse("") == [];
    } else {
      var str := Strconv.NatText(n);
      An2cnCanon(n);
      CorrectedTablesGood();
      ReadCanon(NumberAn2cn, UnitAn2cn, str);
      Strconv.DigitsOfNatText(n);
    }
  }

  /** A "零" in front of a text that does not start with "零" survives collapsing. */
  lemma {:induction false} CollapseLeadZero(y: string)
    requires y != [] && y[0] != '零'
    ensures CollapseZeros("零" + y) == "零" + CollapseZeros(y)
  {
    CollapseRun(1, y);
    assert Repeat('零', 1) == "零";
  }

  /** Trimming drops a leading "零". */
  lemma {:induction false} TrimLeadZero(y: string)
    ensures TrimZeros("零" + y) == TrimZeros(y)
  {
    assert ("零" + y)[1..] == y;
  }

  /** The unit for p places, p >= 1, is made of unit characters only, so it is clean. */
  lemma {:induction false} UnitClean(p: nat)
    requires 1 <= p < |UnitAn2cn|
    ensures UnitEntry(UnitAn2cn[p], Pow(10, p)) && Clean(UnitAn2cn[p]) && Reverse(UnitAn2cn[p]) != []
  {
    UnitTableWeight(p);
    NoZeroUnits(UnitAn2cn[p]);
    PowAbove(p);
  }

  /** The loop of An2cn spells the minus sign of a negative number as "零" and the unit of its place. */
  lemma {:induction false} SpelledNegative(m: nat)
    requires 0 < m < Pow(10, 13)
    ensures var t := Strconv.NatText(m);
      && |t| <= 13
      && Spelled(UnitAn2cn, Strconv.Itoa(-(m as int)), |t| + 1)
         == Some("零" + (UnitAn2cn[|t|] + Raw(NumberAn2cn, UnitAn2cn, t)))
  {
    var t := Strconv.NatText(m);
    var str := Strconv.Itoa(-(m as int));
    assert str == "-" + t;
    NatTextLength(m, 13);
    SpelledRaw(UnitAn2cn, str);
    assert str[0] == '-' && str[1..] == t;
    assert DigitOf('-') == 0 && NumberAn2cn[0] == "零";
    var u := UnitAn2cn[|t|];
    assert PieceAt(NumberAn2cn, UnitAn2cn, '-', |t|) == "零" + u;
    var raw := Raw(NumberAn2cn, UnitAn2cn, t);
    assert Raw(NumberAn2cn, UnitAn2cn, str) == ("零" + u) + raw;
    ConcatAssociates("零", u, raw);
  }

  lemma ConcatAssociates(a: string, b: string, c: string)
    ensures (a + b) + c == a + (b + c)
  {
  }

  /** Collapsing and trimming "零", a clean unit and a spelling whose collapse starts with a digit. */
  lemma {:induction false} SignTrimmed(u: string, raw: string)
    requires Clean(u) && CollapseZeros(raw) != [] && CollapseZeros(raw)[0] != '零'
    ensures TrimZeros(CollapseZeros("零" + (u + raw))) == u + TrimZeros(CollapseZeros(raw))
  {
    var collapsed := CollapseZeros(raw);
    CollapseFree(u, raw);
    CollapseLeadZero(u + raw);
    TrimLeadZero(u + collapsed);
    TrimAfter(u, collapsed);
  }

  /** Reading a unit after Canon of the magnitude only sets the weight. */
  lemma {:induction false} ReadSign(m: nat)
    requires 0 < m < Pow(10, 13)
    ensures var t := Strconv.NatText(m);
      |t| <= 13 && Cn2anOf(UnitAn2cn[|t|] + Canon(NumberAn2cn, UnitAn2cn, t)) == Ok(m)
  {
    var t := Strconv.NatText(m);
    NatTextLength(m, 13);
    NatTextLeading(m);
    var u := UnitAn2cn[|t|];
    var c := Canon(NumberAn2cn, UnitAn2cn, t);
    UnitClean(|t|);
    CorrectedTablesGood();
    ReadCanon(NumberAn2cn, UnitAn2cn, t);
    Strconv.DigitsOfNatText(m);
    ReverseAppend(u, c);
    ReadUnitsFrom(Reverse(c), Scan(m, Pow(10, |t|), false), Reverse(u));
  }

  /**
    A negative number loses its sign: the minus sign is spelled as the digit
    zero followed by the unit of its place, the leading "零" is trimmed, and what
    remains is that unit in front of the spelling of the magnitude. Cn2an reads
    it back as the magnitude, not the negative number.
   */
  lemma {:induction false} An2cnDropsSign(m: nat)
    requires 0 < m < Pow(10, 13)
    ensures |Strconv.NatText(m)| <= 13
    ensures An2cnWith(UnitAn2cn, m).Ok? && An2cnWith(UnitAn2cn, -(m as int)).Ok?
    ensures An2cnWith(UnitAn2cn, -(m as int)).value == UnitAn2cn[|Strconv.NatText(m)|] + An2cnWith(UnitAn2cn, m).value
    ensures Cn2anOf(An2cnWith(UnitAn2cn, -(m as int)).value) == Ok(m)
  {
    var t := Strconv.NatText(m);
    var str := Strconv.Itoa(-(m as int));
    SpelledNegative(m);
    var u := UnitAn2cn[|t|];
    var raw := Raw(NumberAn2cn, UnitAn2cn, t);
    var spelled := "零" + (u + raw);
    assert |str| == |t| + 1;
    assert An2cnWith(UnitAn2cn, -(m as int)) == Ok(TrimZeros(CollapseZeros(spelled)));
    An2cnCanon(m);
    UnitClean(|t|);
    SignTrimmed(u, raw);
    ReadSign(m);
  }

  /** An2cn(-5) is "十五": the sign becomes "零十" and the "零" is trimmed. */
  lemma {:induction false} An2cnMinusFive()
    ensures An2cnWith(UnitAn2cn, -5) == Ok("十五")
  {
    assert Pow(10, 13) > 5;
    An2cnDropsSign(5);
    assert Strconv.NatText(5) == "5";
    An2cnCanon(5);
    assert StripZeros("") == "";
    assert PieceAt(NumberAn2cn, UnitAn2cn, '5', 0) == "五";
    assert Canon(NumberAn2cn, UnitAn2cn, "5") == "五";
    assert UnitAn2cn[1] + "五" == "十五";
  }

  /** Appending a digit to a positive number appends its character to the decimal text. */
  lemma NatTextSnoc(n: nat, d: nat)
    requires n >= 1 && d < 10
    ensures Strconv.NatText(n * 10 + d) == Strconv.NatText(n) + [Strconv.DigitChar(d)]
  {
    var m := n * 10 + d;
    assert m / 10 == n && m % 10 == d;
  }

  /** The decimal text of 1000006, digit by digit. */
  lemma {:induction false} ExampleTextHigh()
    ensures Strconv.NatText(1000006) == "1000006"
  {
    assert Strconv.NatText(1) == "1";
    NatTextSnoc(1, 0);
    NatTextSnoc(10, 0);
    NatTextSnoc(100, 0);
    NatTextSnoc(1000, 0);
    NatTextSnoc(10000, 0);
    NatTextSnoc(100000, 6);
  }

  /** The decimal text of 1000006002400, digit by digit. */
  lemma {:induction false} ExampleText()
    ensures Strconv.NatText(1000006002400) == "1000006002400"
  {
    ExampleTextHigh();
    NatTextSnoc(1000006, 0);
    NatTextSnoc(10000060, 0);
    NatTextSnoc(100000600, 2);
    NatTextSnoc(1000006002, 4);
    NatTextSnoc(10000060024, 0);
    NatTextSnoc(100000600240, 0);
  }

  /** Leading zeros in front of a text that does not start with one are all stripped. */
  lemma {:induction false} StripZerosPrefix(z: string, s: string)
    requires forall i :: 0 <= i < |z| ==> z[i] == '0'
    requires s == [] || s[0] != '0'
    ensures StripZeros(z + s) == s
    decreases |z|
  {
    if z != [] {
      assert (z + s)[1..] == z[1..] + s;
      StripZerosPrefix(z[1..], s);
    }
  }

  /** A digit, a run of zeros and a text that starts with a nonzero digit: one "零" between the two spellings. */
  lemma {:induction false} CanonGap(names: seq<string>, units: seq<string>, c: char, z: string, rest: string)
    requires |names| == 10 && 1 + |z| + |rest| <= |units|
    requires |z| > 0 && (forall i :: 0 <= i < |z| ==> z[i] == '0')
    requires rest != [] && rest[0] != '0'
    ensures Canon(names, units, [c] + z + rest)
            == PieceAt(names, units, c, |z| + |rest|) + "零" + Canon(names, units, rest)
  {
    var str := [c] + z + rest;
    assert str[1..] == z + rest;
    StripZerosPrefix(z, rest);
    CanonFront(names, units, str);
    assert str[0] == c && |str| - 1 == |z| + |rest|;
    ConcatAssociates(PieceAt(names, units, c, |z| + |rest|), "零", Canon(names, units, rest));
  }

  /** The spelling of the lower digits of the example: "2400" is "二千四百". */
  lemma {:induction false} ExampleCanonLow(str: string)
    requires str == "2400"
    ensures Canon(NumberAn2cn, UnitAn2cn, str) == "二千四百"
  {
    assert StripZeros(str[2..]) == "";
    assert Canon(NumberAn2cn, UnitAn2cn, str[1..]) == "四百";
    assert StripZeros(str[1..]) == str[1..];
  }

  /** "6002400" is "六百万零二千四百". */
  lemma {:induction false} ExampleCanonMid(str: string)
    requires str == "6002400"
    ensures Canon(NumberAn2cn, UnitAn2cn, str) == "六百万零二千四百"
  {
    ExampleCanonLow(str[3..]);
    assert str == [str[0]] + str[1..3] + str[3..];
    CanonGap(NumberAn2cn, UnitAn2cn, str[0], str[1..3], str[3..]);
    assert PieceAt(NumberAn2cn, UnitAn2cn, '6', 6) == "六百万";
  }

  /** The whole example: "1000006002400" is "一万亿零六百万零二千四百". */
  lemma {:induction false} ExampleCanon(str: string)
    requires str == "1000006002400"
    ensures Canon(NumberAn2cn, UnitAn2cn, str) == "一万亿零六百万零二千四百"
  {
    ExampleCanonMid(str[6..]);
    assert str == [str[0]] + str[1..6] + str[6..];
    CanonGap(NumberAn2cn, UnitAn2cn, str[0], str[1..6], str[6..]);
    assert PieceAt(NumberAn2cn, UnitAn2cn, '1', 12) == "一万亿";
  }

  /** The documented use: 1000006002400 is spelled "一万亿零六百万零二千四百", which reads back as the number. */
  lemma {:induction false} An2cnExample()
    ensures An2cnWith(UnitAn2cn, 1000006002400) == Ok("一万亿零六百万零二千四百")
    ensures Cn2anOf("一万亿零六百万零二千四百") == Ok(1000006002400)
  {
    assert 1000006002400 < Pow(10, 14);
    ExampleText();
    An2cnCanon(1000006002400);
    ExampleCanon("1000006002400");
    An2cnRoundTrip(1000006002400);
  }
}
