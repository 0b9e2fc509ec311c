/** The identifier arithmetic of `shared/vehicle-number-utils.ts` and its local copies: truck numbers
    travel as "61385", "061385" or " 061385 ", technicians as "JCASTI0" or "jcasti0", and every table
    key is one of the normal forms below. */
module Text {

  datatype Option<+T> = None | Some(value: T)

  function Lookup<V>(m: map<string, V>, key: string): Option<V> {
    if key in m then Some(m[key]) else None
  }

  /** What `String.prototype.trim` removes. */
  predicate IsSpace(c: char) {
    c in "\t\n\r \U{000B}\U{000C}\U{00A0}\U{1680}\U{2028}\U{2029}\U{202F}\U{205F}\U{3000}\U{FEFF}"
    || '\U{2000}' <= c <= '\U{200A}'
  }

  predicate IsDigit(c: char) { '0' <= c <= '9' }

  predicate AllDigits(s: string) { forall c :: c in s ==> IsDigit(c) }

  function TrimLeft(s: string): string {
    if s != "" && IsSpace(s[0]) then TrimLeft(s[1..]) else s
  }

  function TrimRight(s: string): string {
    if s != "" && IsSpace(s[|s| - 1]) then TrimRight(s[..|s| - 1]) else s
  }

  function Trim(s: string): string { TrimRight(TrimLeft(s)) }

  /** `replace(/^0+/, "")` */
  function StripZeros(s: string): string {
    if s != "" && s[0] == '0' then StripZeros(s[1..]) else s
  }

  /** `replace(/\D/g, "")` */
  function Digits(s: string): string {
    if s == "" then "" else if IsDigit(s[0]) then [s[0]] + Digits(s[1..]) else Digits(s[1..])
  }

  function Zeros(n: nat): (z: string)
    ensures |z| == n
  {
    if n == 0 then "" else "0" + Zeros(n - 1)
  }

  /** `padStart(6, "0")` */
  function PadSix(s: string): string {
    if |s| < 6 then Zeros(6 - |s|) + s else s
  }

  function Lower(s: string): string {
    if s == "" then "" else [if 'A' <= s[0] <= 'Z' then (s[0] as int + 32) as char else s[0]] + Lower(s[1..])
  }

  function Upper(s: string): string {
    if s == "" then "" else [if 'a' <= s[0] <= 'z' then (s[0] as int - 32) as char else s[0]] + Upper(s[1..])
  }

  function NormalizeEnterpriseId(s: string): string { Lower(Trim(s)) }

  function ToCanonical(s: string): string {
    var t := Trim(s);
    if t == "" then "" else var c := StripZeros(t); if c == "" then "0" else c
  }

  /** The padded key of the TPMS tables; "" when there is no number at all. */
  function ToTpmsRef(s: string): string {
    var c := ToCanonical(s);
    if c == "" then "" else PadSix(c)
  }

  /** Comparison key of the declined-repair check; "" when the text carries no usable number. */
  function TruckKey(s: string): string { StripZeros(Digits(s)) }

  function PadTruck(s: string): string { PadSix(TruckKey(s)) }

  /** Join key of the All Vehicles mirror. */
  function NormalizeFleetId(s: string): string {
    var k := StripZeros(Digits(s));
    if k == "" then "0" else k
  }

  /** Join key of everything keyed by VIN. */
  function VinKey(vin: string): string { Upper(Trim(vin)) }

  // ── Strings ────────────────────────────────────────────────────────────────

  lemma {:induction false} StripZerosShape(s: string)
    ensures |StripZeros(s)| <= |s|
    ensures StripZeros(s) != "" ==> StripZeros(s)[0] != '0'
    ensures StripZeros(s) == s[|s| - |StripZeros(s)|..]
  {
    if s != "" && s[0] == '0' {
      StripZerosShape(s[1..]);
    }
  }

  lemma {:induction false} StripPadding(n: nat, s: string)
    ensures StripZeros(Zeros(n) + s) == StripZeros(s)
  {
    if n == 0 {
      assert Zeros(0) + s == s;
    } else {
      assert (Zeros(n) + s)[1..] == Zeros(n - 1) + s;
      StripPadding(n - 1, s);
    }
  }

  lemma {:induction false} StripStripped(s: string)
    ensures StripZeros(StripZeros(s)) == StripZeros(s)
  {
    StripZerosShape(s);
  }

  lemma {:induction false} TrimLeftShape(s: string)
    ensures TrimLeft(s) != "" ==> !IsSpace(TrimLeft(s)[0])
    ensures |TrimLeft(s)| <= |s| && TrimLeft(s) == s[|s| - |TrimLeft(s)|..]
  {
    if s != "" && IsSpace(s[0]) {
      TrimLeftShape(s[1..]);
    }
  }

  lemma {:induction false} TrimRightShape(s: string)
    ensures TrimRight(s) != "" ==> !IsSpace(TrimRight(s)[|TrimRight(s)| - 1])
    ensures |TrimRight(s)| <= |s| && TrimRight(s) == s[..|TrimRight(s)|]
  {
    if s != "" && IsSpace(s[|s| - 1]) {
      TrimRightShape(s[..|s| - 1]);
    }
  }

  /** Trimmed text neither begins nor ends with a space. */
  lemma {:induction false} TrimShape(s: string)
    ensures var t := Trim(s); t != "" ==> !IsSpace(t[0]) && !IsSpace(t[|t| - 1])
    ensures |Trim(s)| <= |s|
  {
    TrimLeftShape(s);
    TrimRightShape(TrimLeft(s));
  }

  /** A canonical number never ends in a space, and never begins with '0' unless it is "0" itself. */
  lemma {:induction false} CanonicalShape(s: string)
    ensures var c := ToCanonical(s);
            c != "" ==> !IsSpace(c[|c| - 1]) && (c == "0" || c[0] != '0')
  {
    var t := Trim(s);
    TrimShape(s);
    StripZerosShape(t);
    assert StripZeros(t) != "" ==> StripZeros(t)[|StripZeros(t)| - 1] == t[|t| - 1];
  }

  lemma {:induction false} TrimKeeps(s: string)
    requires s == "" || (!IsSpace(s[0]) && !IsSpace(s[|s| - 1]))
    ensures Trim(s) == s
  {
  }

  // ── Truck numbers ──────────────────────────────────────────────────────────

  /** Padding a number to six and stripping it again gives the number back, except for the numbers of
      six or more characters whose zeros hide a space ("0 61385x"). */
  predicate RoundTrips(s: string) {
    var c := ToCanonical(s);
    c == "" || |c| < 6 || !IsSpace(c[0])
  }

  lemma {:induction false} PaddedRoundTrip(s: string)
    ensures ToCanonical(ToTpmsRef(s)) == ToCanonical(s) <==> RoundTrips(s)
  {
    var c := ToCanonical(s);
    CanonicalShape(s);
    if c == "" {
    } else if |c| < 6 {
      var p := PadSix(c);
      assert p[0] == '0' && p[|p| - 1] == c[|c| - 1];
      TrimKeeps(p);
      StripPadding(6 - |c|, c);
    } else {
      TrimLeftShape(c);
      if IsSpace(c[0]) {
        assert |TrimLeft(c)| < |c| by { TrimLeftShape(c[1..]); }
        TrimRightShape(TrimLeft(c));
        StripZerosShape(Trim(c));
        assert |ToCanonical(c)| < |c|;
      } else {
        TrimKeeps(c);
      }
    }
  }

  /** The case the round trip misses really occurs. */
  lemma RoundTripFails()
    ensures !RoundTrips("0 61385")
    ensures ToCanonical(ToTpmsRef("0 61385")) != ToCanonical("0 61385")
  {
    var s := "0 61385";
    TrimKeeps(s);
    assert s[1..] == " 61385";
    assert StripZeros(s) == StripZeros(" 61385") == " 61385";
    PaddedRoundTrip(s);
  }

  /** Distinct numbers without leading zeros stay distinct when padded. */
  lemma {:induction false} PaddingIsInjective(c: string, d: string)
    requires c != "" && (c == "0" || c[0] != '0')
    requires d != "" && (d == "0" || d[0] != '0')
    requires PadSix(c) == PadSix(d)
    ensures c == d
  {
    if |c| < 6 && |d| < 6 {
      StripPadding(6 - |c|, c);
      StripPadding(6 - |d|, d);
      assert c == PadSix(c)[6 - |c|..] && d == PadSix(d)[6 - |d|..];
    }
  }

  /** Two numbers share a padded key exactly when they are the same truck. */
  lemma {:induction false} SameKeySameTruck(s: string, t: string)
    ensures ToTpmsRef(s) == ToTpmsRef(t) <==> ToCanonical(s) == ToCanonical(t)
  {
    CanonicalShape(s);
    CanonicalShape(t);
    if ToTpmsRef(s) == ToTpmsRef(t) && ToCanonical(s) != "" && ToCanonical(t) != "" {
      PaddingIsInjective(ToCanonical(s), ToCanonical(t));
    }
  }

  /** A stripped number used as a table key can only meet the padded key of the same truck. */
  lemma {:induction false} StrippedKeyMeetsOnlyItself(s: string, t: string)
    requires ToCanonical(s) != "" && ToCanonical(s) == ToTpmsRef(t)
    ensures ToCanonical(s) == ToCanonical(t)
  {
    CanonicalShape(s);
  }

  /** The numbers the assignment routes let through: one to six digits. */
  lemma {:induction false} NumericRoundTrips(s: string)
    requires 1 <= |s| <= 6 && AllDigits(s)
    ensures ToCanonical(s) != "" && RoundTrips(s)
  {
    assert IsDigit(s[0]) && IsDigit(s[|s| - 1]);
    TrimKeeps(s);
    StripZerosShape(s);
    var c := ToCanonical(s);
    if c != "0" {
      assert c[0] in s;
    }
  }

  lemma {:induction false} DigitsShape(s: string)
    ensures AllDigits(Digits(s)) && |Digits(s)| <= |s|
  {
    if s != "" {
      DigitsShape(s[1..]);
    }
  }

  lemma {:induction false} DigitsKeep(s: string)
    requires AllDigits(s)
    ensures Digits(s) == s
  {
    if s != "" {
      assert s == [s[0]] + s[1..];
      DigitsKeep(s[1..]);
    }
  }

  lemma {:induction false} ZerosAreDigits(n: nat)
    ensures AllDigits(Zeros(n))
  {
    if n > 0 {
      ZerosAreDigits(n - 1);
    }
  }

  /** Any character that is no digit may as well not be there. */
  lemma {:induction false} DigitsSkip(s: string, c: char, t: string)
    requires !IsDigit(c)
    ensures Digits(s + [c] + t) == Digits(s + t)
  {
    if s == "" {
      assert s + [c] + t == [c] + t && s + t == t;
    } else {
      assert (s + [c] + t)[1..] == s[1..] + [c] + t && (s + t)[1..] == s[1..] + t;
      DigitsSkip(s[1..], c, t);
    }
  }

  /** The number a string of digits stands for. */
  function Decimal(s: string): nat
    requires AllDigits(s)
  {
    if s == "" then 0
    else
      assert s[|s| - 1] in s;
      10 * Decimal(s[..|s| - 1]) + (s[|s| - 1] as int - '0' as int)
  }

  lemma {:induction false} DecimalOfStripped(s: string)
    requires AllDigits(s)
    ensures AllDigits(StripZeros(s)) && Decimal(StripZeros(s)) == Decimal(s)
  {
    if s != "" && s[0] == '0' {
      DecimalOfStripped(s[1..]);
      DecimalOfPadded(s[1..]);
      assert s == "0" + s[1..];
    }
  }

  lemma {:induction false} DecimalOfPadded(s: string)
    requires AllDigits(s)
    ensures AllDigits("0" + s) && Decimal("0" + s) == Decimal(s)
  {
    if s == "" {
      assert "0" + s == "0" && "0"[..0] == "";
    } else {
      assert ("0" + s)[..|s|] == "0" + s[..|s| - 1];
      DecimalOfPadded(s[..|s| - 1]);
    }
  }

  lemma {:induction false} StrippedIsPositive(s: string)
    requires AllDigits(s) && s != "" && s[0] != '0'
    ensures Decimal(s) > 0
  {
    var n := |s| - 1;
    assert s[0] in s && s[n] in s;
    if n > 0 {
      StrippedIsPositive(s[..n]);
    }
  }

  /** Numbers without leading zeros are equal exactly when their digits are. */
  lemma {:induction false} DecimalIsInjective(s: string, t: string)
    requires AllDigits(s) && AllDigits(t) && Decimal(s) == Decimal(t)
    requires (s != "" ==> s[0] != '0') && (t != "" ==> t[0] != '0')
    ensures s == t
  {
    if s == "" && t != "" {
      StrippedIsPositive(t);
    } else if t == "" && s != "" {
      StrippedIsPositive(s);
    } else if s != "" {
      var m, n := |s| - 1, |t| - 1;
      assert s[m] in s && t[n] in t;
      DecimalIsInjective(s[..m], t[..n]);
      assert s == s[..m] + [s[m]] && t == t[..n] + [t[n]];
    }
  }

  lemma {:induction false} SameStripped(s: string, t: string)
    requires AllDigits(s) && AllDigits(t)
    ensures StripZeros(s) == StripZeros(t) <==> Decimal(s) == Decimal(t)
  {
    DecimalOfStripped(s);
    DecimalOfStripped(t);
    StripZerosShape(s);
    StripZerosShape(t);
    if Decimal(s) == Decimal(t) {
      DecimalIsInjective(StripZeros(s), StripZeros(t));
    }
  }

  /** Two numbers written in digits are the same truck exactly when they are the same number. */
  lemma {:induction false} SameTruckSameNumber(s: string, t: string)
    requires s != "" && AllDigits(s) && t != "" && AllDigits(t)
    ensures ToCanonical(s) == ToCanonical(t) <==> Decimal(s) == Decimal(t)
  {
    assert s[0] in s && s[|s| - 1] in s && t[0] in t && t[|t| - 1] in t;
    TrimKeeps(s);
    TrimKeeps(t);
    SameStripped(s, t);
    StripZerosShape(s);
    StripZerosShape(t);
  }

  /** The join keys of the mirror and of the declined-repair check are equal exactly when the digits of the two
      texts, whatever stands between them, are the same number. */
  lemma {:induction false} SameKeySameNumber(s: string, t: string)
    ensures AllDigits(Digits(s)) && AllDigits(Digits(t))
    ensures NormalizeFleetId(s) == NormalizeFleetId(t) <==> Decimal(Digits(s)) == Decimal(Digits(t))
    ensures TruckKey(s) == TruckKey(t) <==> Decimal(Digits(s)) == Decimal(Digits(t))
    ensures NormalizeFleetId(s) == (if Decimal(Digits(s)) == 0 then "0" else TruckKey(s)) != ""
  {
    DigitsShape(s);
    DigitsShape(t);
    SameStripped(Digits(s), Digits(t));
    StripZerosShape(Digits(s));
    StripZerosShape(Digits(t));
    DecimalOfStripped(Digits(s));
    if TruckKey(s) != "" {
      StrippedIsPositive(TruckKey(s));
    }
  }

  /** The storage form of a decommissioned truck compares equal to the number it came from. */
  lemma {:induction false} StoredTruckKey(s: string)
    ensures TruckKey(PadTruck(s)) == TruckKey(s)
  {
    var k := TruckKey(s);
    DigitsShape(s);
    StripZerosShape(Digits(s));
    assert AllDigits(k);
    StripStripped(Digits(s));
    if |k| < 6 {
      ZerosAreDigits(6 - |k|);
      StripPadding(6 - |k|, k);
    }
    DigitsKeep(PadSix(k));
  }

  // ── Technicians ────────────────────────────────────────────────────────────

  lemma {:induction false} LowerAt(s: string, i: nat)
    requires i < |s|
    ensures |Lower(s)| == |s|
    ensures Lower(s)[i] == if 'A' <= s[i] <= 'Z' then (s[i] as int + 32) as char else s[i]
  {
    if |s| > 1 {
      LowerAt(s[1..], if i == 0 then 0 else i - 1);
    }
  }

  lemma {:induction false} LowerIsIdempotent(s: string)
    ensures Lower(Lower(s)) == Lower(s)
  {
    if s != "" {
      LowerIsIdempotent(s[1..]);
      assert Lower(s)[1..] == Lower(s[1..]);
    }
  }

  lemma {:induction false} LowerOfUpper(s: string)
    ensures Lower(Upper(s)) == Lower(s)
  {
    if s != "" {
      LowerOfUpper(s[1..]);
      assert Upper(s)[1..] == Upper(s[1..]);
    }
  }

  lemma {:induction false} UpperKeepsSpaces(s: string)
    ensures |Upper(s)| == |s| && forall i :: 0 <= i < |s| ==> (IsSpace(Upper(s)[i]) <==> IsSpace(s[i]))
  {
    if s != "" {
      UpperKeepsSpaces(s[1..]);
      assert forall i :: 1 <= i < |s| ==> Upper(s)[i] == Upper(s[1..])[i - 1];
    }
  }

  lemma {:induction false} UpperOfPrefix(s: string, n: nat)
    requires n <= |s|
    ensures |Upper(s)| == |s| && Upper(s[..n]) == Upper(s)[..n]
  {
    if n > 0 {
      UpperOfPrefix(s[1..], n - 1);
      assert s[..n][1..] == s[1..][..n - 1];
    } else {
      UpperKeepsSpaces(s);
    }
  }

  lemma {:induction false} TrimLeftOfUpper(s: string)
    ensures TrimLeft(Upper(s)) == Upper(TrimLeft(s))
  {
    UpperKeepsSpaces(s);
    if s != "" {
      assert Upper(s)[1..] == Upper(s[1..]);
      TrimLeftOfUpper(s[1..]);
    }
  }

  lemma {:induction false} TrimRightOfUpper(s: string)
    ensures TrimRight(Upper(s)) == Upper(TrimRight(s))
  {
    UpperKeepsSpaces(s);
    if s != "" {
      UpperOfPrefix(s, |s| - 1);
      TrimRightOfUpper(s[..|s| - 1]);
    }
  }

  /** Trimming and upper-casing commute. */
  lemma TrimOfUpper(s: string)
    ensures Trim(Upper(s)) == Upper(Trim(s))
  {
    TrimLeftOfUpper(s);
    TrimRightOfUpper(TrimLeft(s));
  }

  lemma {:induction false} TrimLeftOfPadded(before: string, s: string)
    requires forall c :: c in before ==> IsSpace(c)
    ensures TrimLeft(before + s) == TrimLeft(s)
  {
    if before == "" {
      assert before + s == s;
    } else {
      assert (before + s)[1..] == before[1..] + s;
      TrimLeftOfPadded(before[1..], s);
    }
  }

  lemma TrimRightSnoc(s: string, c: char)
    requires IsSpace(c)
    ensures TrimRight(s + [c]) == TrimRight(s)
  {
    assert (s + [c])[..|s|] == s;
  }

  lemma {:induction false} TrimRightOfPadded(s: string, after: string)
    requires forall c :: c in after ==> IsSpace(c)
    ensures TrimRight(s + after) == TrimRight(s)
  {
    if after == "" {
      assert s + after == s;
    } else {
      var n := |after| - 1;
      assert s + after == s + after[..n] + [after[n]];
      TrimRightSnoc(s + after[..n], after[n]);
      TrimRightOfPadded(s, after[..n]);
    }
  }

  /** Text that is not blank keeps what follows it; blank text does not. */
  lemma {:induction false} TrimLeftOfSuffixed(s: string, after: string)
    ensures TrimLeft(s) != "" ==> TrimLeft(s + after) == TrimLeft(s) + after
    ensures TrimLeft(s) == "" ==> TrimLeft(s + after) == TrimLeft(after)
  {
    if s == "" {
      assert s + after == after;
    } else {
      assert (s + after)[1..] == s[1..] + after;
      TrimLeftOfSuffixed(s[1..], after);
    }
  }

  /** Trimming takes away any blank text around. */
  lemma TrimOfPadded(before: string, s: string, after: string)
    requires forall c :: c in before + after ==> IsSpace(c)
    ensures Trim(before + s + after) == Trim(s)
  {
    assert before + s + after == before + (s + after);
    TrimLeftOfPadded(before, s + after);
    TrimLeftOfSuffixed(s, after);
    TrimRightOfPadded(TrimLeft(s), after);
    TrimLeftOfPadded(after, "");
    assert after + "" == after;
  }

  lemma {:induction false} LowerKeepsSpaces(s: string, i: nat)
    requires i < |s|
    ensures |Lower(s)| == |s| && (IsSpace(Lower(s)[i]) <==> IsSpace(s[i]))
  {
    if |s| > 1 {
      LowerKeepsSpaces(s[1..], if i == 0 then 0 else i - 1);
    }
  }

  /** An enterprise id is the same technician in any case and with any space around it. */
  lemma SameTechnician(before: string, s: string, after: string)
    requires forall c :: c in before + after ==> IsSpace(c)
    ensures NormalizeEnterpriseId(before + Upper(s) + after) == NormalizeEnterpriseId(s)
  {
    TrimOfPadded(before, Upper(s), after);
    TrimOfUpper(s);
    LowerOfUpper(Trim(s));
  }

  /** Normalising an enterprise id that is already normalised changes nothing. */
  lemma {:induction false} NormalizeIsIdempotent(s: string)
    ensures NormalizeEnterpriseId(NormalizeEnterpriseId(s)) == NormalizeEnterpriseId(s)
  {
    var t := Trim(s);
    TrimShape(s);
    LowerIsIdempotent(t);
    if t != "" {
      LowerKeepsSpaces(t, 0);
      LowerKeepsSpaces(t, |t| - 1);
      TrimKeeps(Lower(t));
    }
  }
}
