/**
 * The field rules of the user model (users/model.js): the `shortId`
 * virtual derived from the auto-incremented `numericId`, the length limit
 * on `firstName`, and the paths a user document must fill before it is
 * saved, with the defaults that fill some of them.
 */
module UserModel {
  import opened Wrappers
  import J = Json

  // ---------------------------------------------------------------------
  // Decimal notation

  predicate IsDigit(c: char) {
    '0' <= c <= '9'
  }

  predicate AllDigits(s: string) {
    forall i :: 0 <= i < |s| ==> IsDigit(s[i])
  }

  function DigitChar(d: nat): (c: char)
    requires d < 10
    ensures IsDigit(c)
  {
    ('0' as int + d) as char
  }

  function DigitValue(c: char): (d: nat)
    requires IsDigit(c)
    ensures d < 10 && DigitChar(d) == c
  {
    c as int - '0' as int
  }

  function Pow10(k: nat): (r: nat)
    ensures r >= 1
  {
    if k == 0 then 1 else 10 * Pow10(k - 1)
  }

  /** The decimal digits of `n`, most significant first, without leading zeros. */
  function Digits(n: nat): (s: string)
    ensures |s| >= 1 && AllDigits(s)
  {
    if n < 10 then [DigitChar(n)] else Digits(n / 10) + [DigitChar(n % 10)]
  }

  /**
   * `String(n)` for an integer `n` below 10^21: a minus sign for a negative
   * number, then digits that read back as its magnitude.
   */
  function Decimal(n: int): (s: string)
    ensures n >= 0 ==> AllDigits(s) && ParseDecimal(s) == n
    ensures n < 0 ==> |s| >= 2 && s[0] == '-' && AllDigits(s[1..]) && ParseDecimal(s[1..]) == -n
  {
    if n < 0 then
      DigitsRoundTrip(-n);
      var s := "-" + Digits(-n);
      assert s[1..] == Digits(-n);
      s
    else
      DigitsRoundTrip(n);
      Digits(n)
  }

  /** The number a string of decimal digits denotes (leading zeros allowed). */
  function ParseDecimal(s: string): nat
    requires AllDigits(s)
  {
    if s == [] then 0 else ParseDecimal(s[..|s| - 1]) * 10 + DigitValue(s[|s| - 1])
  }

  function Zeros(k: nat): (s: string)
    ensures |s| == k && forall i :: 0 <= i < k ==> s[i] == '0'
  {
    seq(k, _ => '0')
  }

  /** The last `k` decimal digits of `n`, zero-padded to exactly `k` characters. */
  function FixedDigits(n: nat, k: nat): (s: string)
    ensures |s| == k && AllDigits(s)
  {
    if k == 0 then [] else FixedDigits(n / 10, k - 1) + [DigitChar(n % 10)]
  }

  lemma {:induction false} DigitsRoundTrip(n: nat)
    ensures ParseDecimal(Digits(n)) == n
  {
    if n >= 10 {
      var s := Digits(n);
      assert s[..|s| - 1] == Digits(n / 10);
      DigitsRoundTrip(n / 10);
    }
  }

  /** Numbers below 10^k have at most `k` digits. */
  lemma {:induction false} DigitsLength(n: nat, k: nat)
    requires k >= 1 && n < Pow10(k)
    ensures |Digits(n)| <= k
  {
    if n >= 10 {
      DivBelow(n, Pow10(k - 1));
      DigitsLength(n / 10, k - 1);
    }
  }

  lemma DivBelow(n: nat, m: nat)
    requires m >= 1 && n < 10 * m
    ensures n / 10 < m
  {
  }

  /** The `k` fixed digits of `n` denote `n` modulo 10^k. */
  lemma {:induction false} FixedDigitsValue(n: nat, k: nat)
    ensures ParseDecimal(FixedDigits(n, k)) == n % Pow10(k)
  {
    if k > 0 {
      var s := FixedDigits(n, k);
      assert s[..|s| - 1] == FixedDigits(n / 10, k - 1);
      FixedDigitsValue(n / 10, k - 1);
      ModTen(n, Pow10(k - 1));
    }
  }

  /** A string of digits is the fixed-width notation of the number it denotes. */
  lemma {:induction false} ParseThenFix(s: string)
    requires AllDigits(s)
    ensures FixedDigits(ParseDecimal(s), |s|) == s
  {
    if s != [] {
      var init, last := s[..|s| - 1], s[|s| - 1];
      var a, d := ParseDecimal(init), DigitValue(last);
      DivModTen(a, d);
      ParseThenFix(init);
      assert s == init + [last];
    }
  }

  lemma DivModTen(a: nat, d: nat)
    requires d < 10
    ensures (a * 10 + d) / 10 == a && (a * 10 + d) % 10 == d
  {
  }

  lemma ModTen(n: nat, m: nat)
    requires m >= 1
    ensures n % (10 * m) == (n / 10 % m) * 10 + n % 10
  {
    var q, r := n / 10, n % 10;
    var q2, r2 := q / m, q % m;
    assert n == 10 * q + r;
    assert q == m * q2 + r2;
    assert n == (10 * m) * q2 + (r2 * 10 + r);
    ModUnique(n, 10 * m, q2, r2 * 10 + r);
  }

  lemma ModUnique(x: int, m: int, q: int, r: int)
    requires m > 0 && x == q * m + r && 0 <= r < m
    ensures x % m == r
  {
    var t := q - x / m;
    assert x == (x / m) * m + x % m;
    assert t * m == x % m - r;
    MulBound(t, m);
  }

  lemma MulBound(t: int, m: int)
    requires m > 0
    ensures t >= 1 ==> t * m >= m
    ensures t <= -1 ==> t * m <= -m
  {
  }

  // ---------------------------------------------------------------------
  // The `shortId` virtual

  /** From here on JavaScript's `String` writes a number in exponent form. */
  const ExponentFrom: int := 1000000000000000000000

  /** Auto-incremented `numericId`s start here. */
  const FirstNumericId: int := 400

  /**
   * `shortId`: empty when `numericId` is absent or 0 (falsy), otherwise the
   * last six characters of `'000000'` followed by the number's decimal form.
   */
  function ShortId(numericId: Option<int>): (s: string)
    ensures s == [] <==> numericId.None? || numericId.value == 0
    ensures s != [] ==> |s| == 6
  {
    if numericId.None? || numericId.value == 0 then ""
    else
      var padded := Zeros(6) + Decimal(numericId.value);
      padded[|padded| - 6..]
  }

  /** The last `k` characters of `m >= k` zeros followed by the digits of `n`. */
  lemma {:induction false} PaddedSuffix(n: nat, k: nat, m: nat)
    requires m >= k
    ensures var s := Zeros(m) + Digits(n); s[|s| - k..] == FixedDigits(n, k)
  {
    var s := Zeros(m) + Digits(n);
    if k > 0 {
      var d := DigitChar(n % 10);
      if n < 10 {
        assert s == Zeros(m) + [d];
        FixedZero(k - 1);
        assert s[|s| - k..] == Zeros(k - 1) + [d];
      } else {
        var s' := Zeros(m) + Digits(n / 10);
        assert s == s' + [d];
        PaddedSuffix(n / 10, k - 1, m);
        assert s[|s| - k..] == s'[|s'| - (k - 1)..] + [d];
      }
    }
  }

  lemma {:induction false} FixedZero(k: nat)
    ensures FixedDigits(0, k) == Zeros(k)
  {
    if k > 0 {
      FixedZero(k - 1);
    }
  }

  /**
   * For a positive `numericId`, `shortId` is six digits: the last six of the
   * number, which denote the number modulo 10^6.
   */
  lemma ShortIdLastSixDigits(n: int)
    requires 0 < n < ExponentFrom
    ensures |ShortId(Some(n))| == 6 && AllDigits(ShortId(Some(n)))
    ensures ShortId(Some(n)) == FixedDigits(n % 1000000, 6)
    ensures ParseDecimal(ShortId(Some(n))) == n % 1000000
  {
    var sid := ShortId(Some(n));
    assert Decimal(n) == Digits(n);
    PaddedSuffix(n, 6, 6);
    assert sid == FixedDigits(n, 6);
    PowSix();
    FixedDigitsValue(n, 6);
    assert ParseDecimal(sid) == n % 1000000;
    ParseThenFix(sid);
  }

  /**
   * Below 10^6, `shortId` is the decimal form of the number left-padded with
   * zeros, and reading it back gives the number.
   */
  lemma ShortIdPadded(n: int)
    requires 0 < n < 1000000
    ensures |Digits(n)| <= 6
    ensures ShortId(Some(n)) == Zeros(6 - |Digits(n)|) + Digits(n)
    ensures ParseDecimal(ShortId(Some(n))) == n
  {
    PaddedForm(n);
    assert n % 1000000 == n;
    ShortIdLastSixDigits(n);
  }

  /** The string half of `ShortIdPadded`. */
  lemma PaddedForm(n: int)
    requires 0 < n < 1000000
    ensures |Digits(n)| <= 6
    ensures ShortId(Some(n)) == Zeros(6 - |Digits(n)|) + Digits(n)
  {
    PowSix();
    DigitsLength(n, 6);
    var d := Digits(n);
    assert Decimal(n) == d;
    ZerosSuffix(6, d);
  }

  lemma PowSix()
    ensures Pow10(6) == 1000000
  {
  }

  lemma ZerosSuffix(k: nat, d: string)
    requires |d| <= k
    ensures var padded := Zeros(k) + d; padded[|padded| - k..] == Zeros(k - |d|) + d
  {
    var padded := Zeros(k) + d;
    var suffix := padded[|padded| - k..];
    forall i | 0 <= i < k
      ensures suffix[i] == (Zeros(k - |d|) + d)[i]
    {
    }
  }

  /** Every auto-assigned `numericId` has a six-digit `shortId`. */
  lemma AssignedShortId(n: int)
    requires FirstNumericId <= n < ExponentFrom
    ensures ShortId(Some(n)) != "" && AllDigits(ShortId(Some(n)))
  {
    ShortIdLastSixDigits(n);
  }

  /** A negative number keeps its sign inside the six characters. */
  lemma NegativeShortId()
    ensures ShortId(Some(-5)) == "0000-5"
  {
    assert Digits(5) == "5";
    var padded := Zeros(6) + Decimal(-5);
    assert padded == "000000-5";
  }

  // ---------------------------------------------------------------------
  // The firstName length check

  /** How many UTF-16 code units encode `c`: two outside the Basic Multilingual Plane. */
  function Utf16Units(c: char): nat {
    if c as int >= 0x1_0000 then 2 else 1
  }

  /** A JavaScript string's `length`: its UTF-16 code units. */
  function Utf16Length(s: string): (n: nat)
    ensures |s| <= n <= 2 * |s|
  {
    if s == [] then 0 else Utf16Length(s[..|s| - 1]) + Utf16Units(s[|s| - 1])
  }

  const FirstNameMaxLength: nat := 255

  /**
   * The `firstName` validator: at most 255 UTF-16 code units. So a name of
   * more than 255 characters is always refused, one of at most 127 always
   * accepted.
   */
  predicate FirstNameOk(name: string)
    ensures |name| > FirstNameMaxLength ==> !FirstNameOk(name)
    ensures 2 * |name| <= FirstNameMaxLength ==> FirstNameOk(name)
  {
    Utf16Length(name) <= FirstNameMaxLength
  }

  /** Within the Basic Multilingual Plane the limit is exactly 255 characters. */
  lemma {:induction false} BmpLength(s: string)
    requires forall i :: 0 <= i < |s| ==> s[i] as int < 0x1_0000
    ensures Utf16Length(s) == |s|
    ensures FirstNameOk(s) <==> |s| <= FirstNameMaxLength
  {
    if s != [] {
      BmpLength(s[..|s| - 1]);
    }
  }

  // ---------------------------------------------------------------------
  // Required paths and defaults

  /** The paths of the user schema; nested ones are named after their parent. */
  datatype Path =
    | Name | FirstName | LastName | Email | Website | Password | SellerType | AgencyName
    | PIC | ABN | SSPermitNumber | SSPermitNumberOfYears | TradingName | Phone | SecondaryPhone
    | Role | Type | ApiKey | WatchList | Bids | NumericId
    | PushLotClosed | PushLotLost                       // settings.pushPermissions.*
    | PropertyName | PropertyAddress | PropertyTown | PropertyPostcode
    | PostalName | PostalAddress | PostalTown | PostalPostcode
    | SaleConditions | CreatedAt | ResetPasswordToken | ResetPasswordExpires
    | SSPermitFile | IdentityPolicyFile | FileKeys

  /**
   * A user document as the model sees it before saving: each set path to
   * its value. String paths hold strings or null; Mixed paths hold any value.
   */
  type UserDoc = map<Path, J.Value>

  /** String paths declared `required: true`. */
  const RequiredStringPaths: set<Path> := {
    FirstName, LastName, Email, Password, PIC, ABN, TradingName, Phone, ApiKey,
    PropertyTown, PropertyPostcode, PostalTown, PostalPostcode}

  /** Mixed paths declared `required: true`. */
  const RequiredMixedPaths: set<Path> := {WatchList, Bids}

  /** The required check of a String path: a non-empty string. */
  predicate StringPresent(doc: UserDoc, p: Path) {
    p in doc && doc[p].Str? && |doc[p].s| > 0
  }

  /** The required check of a Mixed path: any value but null. */
  predicate MixedPresent(doc: UserDoc, p: Path) {
    p in doc && !doc[p].Null?
  }

  function MissingRequired(doc: UserDoc): (r: set<Path>)
    ensures forall p :: p in r <==>
      (p in RequiredStringPaths && !StringPresent(doc, p)) || (p in RequiredMixedPaths && !MixedPresent(doc, p))
  {
    (set p | p in RequiredStringPaths && !StringPresent(doc, p)) +
    (set p | p in RequiredMixedPaths && !MixedPresent(doc, p))
  }

  /**
   * The paths that fail validation: each missing required path, `firstName`
   * when it is too long, and `email` when the address validator (a
   * parameter) refuses it.
   */
  function ValidationErrors(doc: UserDoc, isEmail: string -> bool): (errors: set<Path>)
    ensures errors <= RequiredStringPaths + RequiredMixedPaths
  {
    MissingRequired(doc) +
    (if FirstName in doc && doc[FirstName].Str? && !FirstNameOk(doc[FirstName].s) then {FirstName} else {}) +
    (if Email in doc && doc[Email].Str? && !isEmail(doc[Email].s) then {Email} else {})
  }

  /** A document saves only when every required path is filled and both checks pass. */
  lemma ValidDocument(doc: UserDoc, isEmail: string -> bool)
    ensures ValidationErrors(doc, isEmail) == {} <==>
      && (forall p :: p in RequiredStringPaths ==> p in doc && doc[p].Str? && doc[p].s != [])
      && (forall p :: p in RequiredMixedPaths ==> p in doc && !doc[p].Null?)
      && Utf16Length(doc[FirstName].s) <= 255
      && isEmail(doc[Email].s)
  {
    if ValidationErrors(doc, isEmail) == {} {
      forall p | p in RequiredStringPaths
        ensures p in doc && doc[p].Str? && doc[p].s != []
      {
        assert p !in MissingRequired(doc);
      }
      forall p | p in RequiredMixedPaths
        ensures p in doc && !doc[p].Null?
      {
        assert p !in MissingRequired(doc);
      }
    }
  }

  /** A `firstName` beyond 255 code units is reported, whatever else the document holds. */
  lemma LongFirstNameRejected(doc: UserDoc, isEmail: string -> bool)
    requires FirstName in doc && doc[FirstName].Str? && |doc[FirstName].s| > FirstNameMaxLength
    ensures FirstName in ValidationErrors(doc, isEmail)
  {
  }

  /** String paths that default to null. */
  const NullDefaultPaths: set<Path> := {
    Website, AgencyName, SSPermitNumber, SSPermitNumberOfYears, SecondaryPhone, SaleConditions,
    PropertyName, PropertyAddress, PostalName, PostalAddress}

  /** Paths with a fixed default value. */
  const FixedDefaults: map<Path, J.Value> := map[
    WatchList := J.Obj(map[]),
    Bids := J.Obj(map[]),
    PushLotClosed := J.Bool(true),
    PushLotLost := J.Bool(true)]

  /** `doc` with every path of `defaults` that `doc` leaves unset taken from `defaults`. */
  function Fill(doc: UserDoc, defaults: map<Path, J.Value>): (r: UserDoc)
    ensures r.Keys == doc.Keys + defaults.Keys
    ensures forall p :: p in r ==> r[p] == if p in doc then doc[p] else defaults[p]
  {
    doc + map p | p in defaults.Keys - doc.Keys :: defaults[p]
  }

  /**
   * The defaults applied to the paths a new document leaves unset. The
   * generated API key (a fresh uuid) is a parameter.
   */
  function Defaults(freshApiKey: string): (r: map<Path, J.Value>)
    ensures r.Keys == NullDefaultPaths + FixedDefaults.Keys + {ApiKey}
    ensures forall p :: p in NullDefaultPaths ==> r[p] == J.Null
    ensures forall p :: p in FixedDefaults ==> r[p] == FixedDefaults[p]
    ensures r[ApiKey] == J.Str(freshApiKey)
  {
    DefaultsDisjoint();
    FixedDefaults + map[ApiKey := J.Str(freshApiKey)] + (map p | p in NullDefaultPaths :: J.Null)
  }

  lemma DefaultsDisjoint()
    ensures NullDefaultPaths !! FixedDefaults.Keys
    ensures ApiKey !in NullDefaultPaths && ApiKey !in FixedDefaults
  {
  }

  function ApplyDefaults(doc: UserDoc, freshApiKey: string): (r: UserDoc)
    ensures r.Keys == doc.Keys + NullDefaultPaths + FixedDefaults.Keys + {ApiKey}
    ensures forall p :: p in doc ==> r[p] == doc[p]
    ensures forall p :: p in NullDefaultPaths && p !in doc ==> r[p] == J.Null
    ensures forall p :: p in FixedDefaults && p !in doc ==> r[p] == FixedDefaults[p]
    ensures ApiKey !in doc ==> r[ApiKey] == J.Str(freshApiKey)
  {
    var defaults := Defaults(freshApiKey);
    FillWith(doc, defaults, NullDefaultPaths, FixedDefaults, J.Str(freshApiKey));
    Fill(doc, defaults)
  }

  /** What `Fill` gives for defaults of the shape `Defaults` has, named abstractly. */
  lemma FillWith(doc: UserDoc, defaults: map<Path, J.Value>, nulls: set<Path>,
                 fixed: map<Path, J.Value>, key: J.Value)
    requires defaults.Keys == nulls + fixed.Keys + {ApiKey}
    requires forall p :: p in nulls ==> defaults[p] == J.Null
    requires forall p :: p in fixed ==> defaults[p] == fixed[p]
    requires defaults[ApiKey] == key
    ensures var r := Fill(doc, defaults);
      && r.Keys == doc.Keys + nulls + fixed.Keys + {ApiKey}
      && (forall p :: p in doc ==> r[p] == doc[p])
      && (forall p :: p in nulls && p !in doc ==> r[p] == J.Null)
      && (forall p :: p in fixed && p !in doc ==> r[p] == fixed[p])
      && (ApiKey !in doc ==> r[ApiKey] == key)
  {
  }

  /** Whether the default of `p` satisfies its required check: `{}` always, the API key when non-empty. */
  predicate DefaultSatisfies(p: Path, freshApiKey: string) {
    p in RequiredMixedPaths || (p == ApiKey && freshApiKey != [])
  }

  /**
   * Defaults only fill unset paths: a required path stops being missing
   * exactly when it was unset and its default satisfies it (`watchList` and
   * `bids` always, `apiKey` when the generated key is non-empty); one set
   * to null or to the empty string stays missing.
   */
  lemma DefaultsFillRequired(doc: UserDoc, freshApiKey: string)
    ensures forall p :: p in MissingRequired(ApplyDefaults(doc, freshApiKey)) <==>
      p in MissingRequired(doc) && !(p !in doc && DefaultSatisfies(p, freshApiKey))
    ensures forall p :: p in RequiredMixedPaths && p !in doc ==> p !in MissingRequired(ApplyDefaults(doc, freshApiKey))
  {
    forall p
      ensures p in MissingRequired(ApplyDefaults(doc, freshApiKey)) <==>
                p in MissingRequired(doc) && !(p !in doc && DefaultSatisfies(p, freshApiKey))
    {
      MissingAfterDefaults(doc, freshApiKey, p);
    }
  }

  /** The previous lemma for one path. */
  lemma MissingAfterDefaults(doc: UserDoc, freshApiKey: string, p: Path)
    ensures var r := ApplyDefaults(doc, freshApiKey);
      && (p in RequiredMixedPaths ==> (MixedPresent(r, p) <==> MixedPresent(doc, p) || p !in doc))
      && (p in RequiredStringPaths ==>
            (StringPresent(r, p) <==> StringPresent(doc, p) || (p !in doc && DefaultSatisfies(p, freshApiKey))))
  {
    if p in RequiredMixedPaths {
      MixedAfterDefaults(doc, freshApiKey, p);
    }
    if p in RequiredStringPaths {
      StringAfterDefaults(doc, freshApiKey, p);
    }
  }

  lemma MixedAfterDefaults(doc: UserDoc, freshApiKey: string, p: Path)
    requires p in RequiredMixedPaths
    ensures MixedPresent(ApplyDefaults(doc, freshApiKey), p) <==> MixedPresent(doc, p) || p !in doc
  {
    RequiredDefaults();
    var r := ApplyDefaults(doc, freshApiKey);
    assert p in FixedDefaults && p in r;
  }

  lemma StringAfterDefaults(doc: UserDoc, freshApiKey: string, p: Path)
    requires p in RequiredStringPaths
    ensures StringPresent(ApplyDefaults(doc, freshApiKey), p) <==>
              StringPresent(doc, p) || (p !in doc && DefaultSatisfies(p, freshApiKey))
  {
    RequiredDefaults();
    var r := ApplyDefaults(doc, freshApiKey);
    StringDefaulted(doc, r, freshApiKey, p);
  }

  /** `StringAfterDefaults`, from what `ApplyDefaults` promises about the filled document `r`. */
  lemma StringDefaulted(doc: UserDoc, r: UserDoc, freshApiKey: string, p: Path)
    requires p != ApiKey ==> p !in NullDefaultPaths && p !in FixedDefaults
    requires r.Keys == doc.Keys + NullDefaultPaths + FixedDefaults.Keys + {ApiKey}
    requires forall q :: q in doc ==> r[q] == doc[q]
    requires ApiKey !in doc ==> r[ApiKey] == J.Str(freshApiKey)
    ensures StringPresent(r, p) <==> StringPresent(doc, p) || (p !in doc && p == ApiKey && freshApiKey != [])
  {
    if p in doc {
      assert r[p] == doc[p];
    } else if p != ApiKey {
      assert p !in r;
    }
  }

  /** Which required paths have a default. */
  lemma RequiredDefaults()
    ensures RequiredStringPaths !! NullDefaultPaths && RequiredStringPaths !! FixedDefaults.Keys
    ensures RequiredMixedPaths !! NullDefaultPaths && RequiredMixedPaths <= FixedDefaults.Keys
    ensures forall p :: p in RequiredMixedPaths ==> !FixedDefaults[p].Null?
    ensures ApiKey in RequiredStringPaths && ApiKey !in RequiredMixedPaths
  {
  }
}
