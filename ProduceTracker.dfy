/**
 * Produce batch tracking: shelf-life arithmetic, the expiry banner of a batch
 * card, the badge colour tables, the status label and generated batch codes.
 * Instants are integer milliseconds since the epoch; the current instant is a
 * parameter instead of a clock read.
 */
module ProduceTracker {
  import opened Wrappers

  /** One day in milliseconds: 24 * 60 * 60 * 1000. */
  const MsPerDay: int := 86400000

  // ---------------------------------------------------------------------------
  // Days remaining

  /** Math.ceil of the exact quotient a / b, for a positive divisor. */
  function CeilDiv(a: int, b: int): (q: int)
    requires b > 0
    ensures (q - 1) * b < a <= q * b
  {
    var f := (-a) / b;
    assert b * f <= -a < b * f + b;
    -f
  }

  /**
   * Whole days (rounded up) from `nowMs` to the expiry instant, which lies
   * `shelfLifeDays` days after the harvest instant.
   */
  function DaysRemaining(harvestMs: int, shelfLifeDays: int, nowMs: int): (days: int)
    ensures (days - 1) * MsPerDay < harvestMs + shelfLifeDays * MsPerDay - nowMs <= days * MsPerDay
  {
    var expiryMs := harvestMs + shelfLifeDays * MsPerDay;
    CeilDiv(expiryMs - nowMs, MsPerDay)
  }

  /** Viewed at the harvest instant, a batch has exactly its shelf life left. */
  lemma DaysRemainingAtHarvest(harvestMs: int, shelfLifeDays: int)
    ensures DaysRemaining(harvestMs, shelfLifeDays, harvestMs) == shelfLifeDays
  {
    var d := DaysRemaining(harvestMs, shelfLifeDays, harvestMs);
    assert (d - 1) * MsPerDay < shelfLifeDays * MsPerDay <= d * MsPerDay;
  }

  /** After exactly k whole days the count has dropped by k. */
  lemma DaysRemainingAfterWholeDays(harvestMs: int, shelfLifeDays: int, k: int)
    ensures DaysRemaining(harvestMs, shelfLifeDays, harvestMs + k * MsPerDay) == shelfLifeDays - k
  {
    var d := DaysRemaining(harvestMs, shelfLifeDays, harvestMs + k * MsPerDay);
    assert (d - 1) * MsPerDay < (shelfLifeDays - k) * MsPerDay <= d * MsPerDay;
  }

  /** Days remaining never grows while the current instant advances. */
  lemma DaysRemainingAntitone(harvestMs: int, shelfLifeDays: int, earlierMs: int, laterMs: int)
    requires earlierMs <= laterMs
    ensures DaysRemaining(harvestMs, shelfLifeDays, laterMs) <= DaysRemaining(harvestMs, shelfLifeDays, earlierMs)
  {
    var e := DaysRemaining(harvestMs, shelfLifeDays, earlierMs);
    var l := DaysRemaining(harvestMs, shelfLifeDays, laterMs);
    assert (l - 1) * MsPerDay < e * MsPerDay;
  }

  /** One day later the count is exactly one less. */
  lemma DaysRemainingNextDay(harvestMs: int, shelfLifeDays: int, nowMs: int)
    ensures DaysRemaining(harvestMs, shelfLifeDays, nowMs + MsPerDay)
         == DaysRemaining(harvestMs, shelfLifeDays, nowMs) - 1
  {
    var d := DaysRemaining(harvestMs, shelfLifeDays, nowMs);
    var d' := DaysRemaining(harvestMs, shelfLifeDays, nowMs + MsPerDay);
    assert (d' - 1) * MsPerDay < (d - 1) * MsPerDay && (d - 2) * MsPerDay < d' * MsPerDay;
  }

  // ---------------------------------------------------------------------------
  // Expiry classification and the banner of a batch card

  /** A batch is expired once no whole day remains. */
  predicate IsExpired(days: int)
  {
    days <= 0
  }

  /** A batch expires soon when one to three days remain. */
  predicate IsExpiringSoon(days: int)
  {
    days <= 3 && days > 0
  }

  /** Expired exactly from the expiry instant on, whatever the time of day. */
  lemma ExpiredIffPastExpiry(harvestMs: int, shelfLifeDays: int, nowMs: int)
    ensures IsExpired(DaysRemaining(harvestMs, shelfLifeDays, nowMs))
        <==> nowMs >= harvestMs + shelfLifeDays * MsPerDay
  {
    var d := DaysRemaining(harvestMs, shelfLifeDays, nowMs);
    if d >= 1 {
      assert 0 * MsPerDay <= (d - 1) * MsPerDay;
    } else {
      assert d * MsPerDay <= 0;
    }
  }

  /** Expiring soon exactly during the last three days (72 hours) before expiry. */
  lemma ExpiringSoonIffLastThreeDays(harvestMs: int, shelfLifeDays: int, nowMs: int)
    ensures IsExpiringSoon(DaysRemaining(harvestMs, shelfLifeDays, nowMs))
        <==> harvestMs + (shelfLifeDays - 3) * MsPerDay <= nowMs < harvestMs + shelfLifeDays * MsPerDay
  {
    var d := DaysRemaining(harvestMs, shelfLifeDays, nowMs);
    if d >= 4 {
      assert 3 * MsPerDay <= (d - 1) * MsPerDay;
    } else if d >= 1 {
      assert d * MsPerDay <= 3 * MsPerDay;
      assert 0 <= (d - 1) * MsPerDay;
    } else {
      assert d * MsPerDay <= 0;
    }
  }

  /** The banner at the bottom of a batch card; the two counted kinds show the days left. */
  datatype Banner = ExpiredBanner | WarningBanner(days: int) | OkBanner(days: int)

  /** Expired is tested first, then expiring soon; anything else is fine. */
  function BannerFor(days: int): (b: Banner)
    ensures b == ExpiredBanner <==> days <= 0
    ensures b == WarningBanner(days) <==> 1 <= days <= 3
    ensures b == OkBanner(days) <==> 4 <= days
  {
    if IsExpired(days) then ExpiredBanner
    else if IsExpiringSoon(days) then WarningBanner(days)
    else OkBanner(days)
  }

  /** A count of days can never be both expired and expiring soon. */
  lemma ExpiryClassesDisjoint(days: int)
    ensures !(IsExpired(days) && IsExpiringSoon(days))
    ensures IsExpired(days) || IsExpiringSoon(days) || days >= 4
  {
  }

  /** The class of the banner box: one colour per kind of banner. */
  function BannerClass(b: Banner): (c: string)
    ensures b.ExpiredBanner? <==> c == "bg-destructive/10 text-destructive"
    ensures b.WarningBanner? <==> c == "bg-warning/10 text-warning"
    ensures b.OkBanner? <==> c == "bg-success/10 text-success"
  {
    match b
    case ExpiredBanner => "bg-destructive/10 text-destructive"
    case WarningBanner(_) => "bg-warning/10 text-warning"
    case OkBanner(_) => "bg-success/10 text-success"
  }

  const WarningSign: string := "\U{26A0}\U{FE0F} "
  const CheckSign: string := "\U{2713} "
  const DaysSuffix: string := " days remaining"

  /** The text of the banner; a counted banner shows its count in decimal. */
  function BannerMessage(b: Banner): (m: string)
    requires !b.ExpiredBanner? ==> b.days >= 0
    ensures |m| > 0 && (m[0] == CheckSign[0] <==> b.OkBanner?)
  {
    match b
    case ExpiredBanner => "\U{26A0}\U{FE0F} Expired"
    case WarningBanner(d) => WarningSign + Decimal(d) + DaysSuffix
    case OkBanner(d) => CheckSign + Decimal(d) + DaysSuffix
  }

  /** The count a banner text shows between `sign` and the days suffix, if it has that shape. */
  function CountAfter(m: string, sign: string): Option<nat>
  {
    if |m| < |sign| + |DaysSuffix| || m[..|sign|] != sign || m[|m| - |DaysSuffix|..] != DaysSuffix then None
    else
      var digits := m[|sign|..|m| - |DaysSuffix|];
      if digits != [] && forall k :: 0 <= k < |digits| ==> IsDigit(digits[k])
      then Some(DecimalValue(digits)) else None
  }

  /** The count a reader of the card sees in a banner text, if it shows one. */
  function BannerCount(m: string): Option<nat>
  {
    if CountAfter(m, WarningSign).Some? then CountAfter(m, WarningSign) else CountAfter(m, CheckSign)
  }

  /** A counted banner shows exactly its count, and the expired banner shows none. */
  lemma BannerMessageCount(b: Banner)
    requires !b.ExpiredBanner? ==> b.days >= 0
    ensures BannerCount(BannerMessage(b)) == if b.ExpiredBanner? then None else Some(b.days)
  {
    var m := BannerMessage(b);
    match b
    case ExpiredBanner =>
      assert |m| < |CheckSign| + |DaysSuffix|;
    case WarningBanner(d) =>
      assert m[..|WarningSign|] == WarningSign;
      assert m[|m| - |DaysSuffix|..] == DaysSuffix;
      assert m[|WarningSign|..|m| - |DaysSuffix|] == Decimal(d);
      DecimalRoundTrip(d);
    case OkBanner(d) =>
      assert m[..|WarningSign|][0] == m[0] != WarningSign[0];
      assert m[..|CheckSign|] == CheckSign;
      assert m[|m| - |DaysSuffix|..] == DaysSuffix;
      assert m[|CheckSign|..|m| - |DaysSuffix|] == Decimal(d);
      DecimalRoundTrip(d);
  }

  // ---------------------------------------------------------------------------
  // Badge colour tables

  /** The batch_status enumeration of the database schema. */
  datatype BatchStatus = InStorage | InTransit | Delivered | Spoiled
  {
    function Name(): string
    {
      match this
      case InStorage => "in_storage"
      case InTransit => "in_transit"
      case Delivered => "delivered"
      case Spoiled => "spoiled"
    }
  }

  /** The produce_type enumeration of the database schema. */
  datatype ProduceType = Vegetables | Fruits | Grains | Dairy | Other
  {
    function Name(): string
    {
      match this
      case Vegetables => "vegetables"
      case Fruits => "fruits"
      case Grains => "grains"
      case Dairy => "dairy"
      case Other => "other"
    }
  }

  /** The batch_status values in the schema's order. */
  const BatchStatusNames: seq<string> := ["in_storage", "in_transit", "delivered", "spoiled"]

  /** The produce_type values in the schema's order. */
  const ProduceTypeNames: seq<string> := ["vegetables", "fruits", "grains", "dairy", "other"]

  /** The enumerations name exactly the schema's values. */
  lemma EnumerationNames()
    ensures forall s: BatchStatus :: s.Name() in BatchStatusNames
    ensures forall t: ProduceType :: t.Name() in ProduceTypeNames
    ensures forall n :: n in BatchStatusNames ==> exists s: BatchStatus :: s.Name() == n
    ensures forall n :: n in ProduceTypeNames ==> exists t: ProduceType :: t.Name() == n
  {
    assert InStorage.Name() == BatchStatusNames[0] && InTransit.Name() == BatchStatusNames[1];
    assert Delivered.Name() == BatchStatusNames[2] && Spoiled.Name() == BatchStatusNames[3];
    assert Vegetables.Name() == ProduceTypeNames[0] && Fruits.Name() == ProduceTypeNames[1];
    assert Grains.Name() == ProduceTypeNames[2] && Dairy.Name() == ProduceTypeNames[3];
    assert Other.Name() == ProduceTypeNames[4];
  }

  const Muted: string := "bg-muted"
  const MutedText: string := "bg-muted text-muted-foreground"

  /** The status badge colour; any string that names no batch status is muted. */
  function StatusColor(status: string): (c: string)
    ensures c == Muted <==> status !in BatchStatusNames
  {
    match status
    case "in_storage" => "bg-success text-white"
    case "in_transit" => "bg-info text-white"
    case "delivered" => "bg-primary text-white"
    case "spoiled" => "bg-destructive text-white"
    case _ => Muted
  }

  /** Every batch status has a colour of its own. */
  lemma StatusColorsDistinct(s: BatchStatus, t: BatchStatus)
    requires s != t
    ensures StatusColor(s.Name()) != StatusColor(t.Name())
  {
    match s
    case InStorage =>
    case InTransit =>
    case Delivered =>
    case Spoiled =>
  }

  /**
   * The produce type badge colour. Vegetables, fruits, grains and dairy have
   * their own classes; "other", although an enumeration value, is muted like
   * any unknown string.
   */
  function ProduceTypeColor(produceType: string): (c: string)
    ensures c == MutedText <==> produceType !in ProduceTypeNames || produceType == Other.Name()
  {
    match produceType
    case "vegetables" => "bg-success/10 text-success border-success/20"
    case "fruits" => "bg-warning/10 text-warning border-warning/20"
    case "grains" => "bg-accent/10 text-accent border-accent/20"
    case "dairy" => "bg-info/10 text-info border-info/20"
    case _ => MutedText
  }

  /** Distinct produce types other than "other" have distinct colours. */
  lemma ProduceTypeColorsDistinct(s: ProduceType, t: ProduceType)
    requires s != t && s != Other && t != Other
    ensures ProduceTypeColor(s.Name()) != ProduceTypeColor(t.Name())
  {
    match s
    case Vegetables =>
    case Fruits =>
    case Grains =>
    case Dairy =>
  }

  // ---------------------------------------------------------------------------
  // Status label

  /** String.prototype.replace with a one-character string pattern. */
  function ReplaceFirst(s: string, from: char, to: char): (r: string)
    ensures |r| == |s|
  {
    if s == [] then []
    else if s[0] == from then [to] + s[1..]
    else [s[0]] + ReplaceFirst(s[1..], from, to)
  }

  /** A string without the pattern character is left as it is. */
  lemma {:induction false} ReplaceFirstAbsent(s: string, from: char, to: char)
    requires from !in s
    ensures ReplaceFirst(s, from, to) == s
  {
    if s != [] {
      assert from !in s[1..];
      ReplaceFirstAbsent(s[1..], from, to);
    }
  }

  /**
   * Only the first occurrence is replaced: what precedes it has no occurrence,
   * and what follows it, later occurrences included, is kept.
   */
  lemma {:induction false} ReplaceFirstSplit(front: string, back: string, from: char, to: char)
    requires from !in front
    ensures ReplaceFirst(front + [from] + back, from, to) == front + [to] + back
  {
    if front != [] {
      assert (front + [from] + back)[1..] == front[1..] + [from] + back;
      assert from !in front[1..];
      ReplaceFirstSplit(front[1..], back, from, to);
    }
  }

  /**
   * The badge label of in_storage; the two statuses without an underscore
   * are unchanged by ReplaceFirstAbsent.
   */
  lemma StatusLabelInStorage()
    ensures ReplaceFirst(InStorage.Name(), '_', ' ') == "in storage"
  {
    assert InStorage.Name() == "in" + ['_'] + "storage";
    ReplaceFirstSplit("in", "storage", '_', ' ');
    assert "in" + [' '] + "storage" == "in storage";
  }

  /** The badge label of in_transit. */
  lemma StatusLabelInTransit()
    ensures ReplaceFirst(InTransit.Name(), '_', ' ') == "in transit"
  {
    assert InTransit.Name() == "in" + ['_'] + "transit";
    ReplaceFirstSplit("in", "transit", '_', ' ');
    assert "in" + [' '] + "transit" == "in transit";
  }


  // ---------------------------------------------------------------------------
  // Generated batch codes

  /** The decimal digit for 0 <= d < 10. */
  function DigitChar(d: nat): (c: char)
    requires d < 10
    ensures '0' <= c <= '9'
    ensures c == '0' <==> d == 0
  {
    (d + '0' as int) as char
  }

  predicate IsDigit(c: char)
  {
    '0' <= c <= '9'
  }

  /** The shortest decimal rendering of a natural number, as JavaScript prints it below 1e21. */
  function Decimal(n: nat): (s: string)
    ensures 1 <= |s|
    ensures forall k :: 0 <= k < |s| ==> IsDigit(s[k])
    ensures |s| == 1 <==> n < 10
    ensures s[0] == '0' <==> n == 0
  {
    if n < 10 then [DigitChar(n)] else Decimal(n / 10) + [DigitChar(n % 10)]
  }

  function DigitValue(c: char): (d: nat)
    requires IsDigit(c)
    ensures d < 10
  {
    c as int - '0' as int
  }

  /** The number a string of decimal digits denotes. */
  function DecimalValue(s: string): nat
    requires forall k :: 0 <= k < |s| ==> IsDigit(s[k])
  {
    if s == [] then 0
    else 10 * DecimalValue(s[..|s| - 1]) + DigitValue(s[|s| - 1])
  }

  /** Reading back a rendered number gives the number. */
  lemma {:induction false} DecimalRoundTrip(n: nat)
    ensures DecimalValue(Decimal(n)) == n
  {
    if n >= 10 {
      DecimalRoundTrip(n / 10);
      var s := Decimal(n);
      assert s[..|s| - 1] == Decimal(n / 10);
    }
  }

  /** A character Number.prototype.toString(36) prints for a fraction: a base-36 digit or the point. */
  predicate IsBase36Char(c: char)
  {
    '0' <= c <= '9' || 'a' <= c <= 'z' || c == '.'
  }

  const Capitals: string := "ABCDEFGHIJKLMNOPQRSTUVWXYZ"

  /** toUpperCase on one character of the base-36 alphabet: ASCII a-z only. */
  function UpperChar(c: char): (u: char)
    ensures 'a' <= c <= 'z' ==> u == Capitals[c as int - 'a' as int]
    ensures !('a' <= c <= 'z') ==> u == c
    ensures IsBase36Char(c) ==> IsCodeChar(u)
  {
    if 'a' <= c <= 'z' then (c as int - 32) as char else c
  }

  /** toUpperCase, character by character. */
  function Upper(s: string): (u: string)
    ensures |u| == |s|
    ensures forall k :: 0 <= k < |s| ==> u[k] == UpperChar(s[k])
  {
    if s == [] then [] else [UpperChar(s[0])] + Upper(s[1..])
  }

  /** String.prototype.substring(7): the empty string when the input is shorter. */
  function SkipSeven(s: string): (t: string)
    ensures |s| <= 7 ==> t == []
    ensures |s| > 7 ==> s == s[..7] + t
  {
    if |s| <= 7 then [] else s[7..]
  }

  const CodePrefix: string := "AGRI-"

  /** The characters a batch code is written with: digits, capitals, the dash and the point. */
  predicate IsCodeChar(c: char)
  {
    '0' <= c <= '9' || 'A' <= c <= 'Z' || c == '-' || c == '.'
  }

  /**
   * The code of a new batch: the prefix, the current instant in decimal, a
   * dash and the upper-cased tail of a random base-36 string. `nowMs` stands
   * for the clock and `randomBase36` for the random source.
   */
  function QRCode(nowMs: nat, randomBase36: string): (code: string)
    requires forall k :: 0 <= k < |randomBase36| ==> IsBase36Char(randomBase36[k])
    ensures |code| > |CodePrefix| && code[..|CodePrefix|] == CodePrefix
    ensures forall k :: 0 <= k < |code| ==> IsCodeChar(code[k])
  {
    CodePrefix + Decimal(nowMs) + "-" + Upper(SkipSeven(randomBase36))
  }

  /** The characters of `s` before its first dash. */
  function BeforeDash(s: string): (t: string)
    ensures t <= s && '-' !in t
  {
    if s == [] || s[0] == '-' then [] else [s[0]] + BeforeDash(s[1..])
  }

  /** The instant a batch code was generated at, read back from the code. */
  function CodeTimestamp(code: string): (t: Option<nat>)
  {
    if |code| < |CodePrefix| || code[..|CodePrefix|] != CodePrefix then None
    else
      var digits := BeforeDash(code[|CodePrefix|..]);
      if digits != [] && forall k :: 0 <= k < |digits| ==> IsDigit(digits[k])
      then Some(DecimalValue(digits)) else None
  }

  lemma {:induction false} BeforeDashOfDigits(digits: string, rest: string)
    requires forall k :: 0 <= k < |digits| ==> IsDigit(digits[k])
    ensures BeforeDash(digits + "-" + rest) == digits
  {
    if digits != [] {
      assert (digits + "-" + rest)[1..] == digits[1..] + "-" + rest;
      BeforeDashOfDigits(digits[1..], rest);
    }
  }

  /** A generated code records the instant it was made at, whatever the random tail. */
  lemma QRCodeTimestampRoundTrip(nowMs: nat, randomBase36: string)
    requires forall k :: 0 <= k < |randomBase36| ==> IsBase36Char(randomBase36[k])
    ensures CodeTimestamp(QRCode(nowMs, randomBase36)) == Some(nowMs)
  {
    var code := QRCode(nowMs, randomBase36);
    var tail := Upper(SkipSeven(randomBase36));
    assert code[|CodePrefix|..] == Decimal(nowMs) + "-" + tail;
    BeforeDashOfDigits(Decimal(nowMs), tail);
    DecimalRoundTrip(nowMs);
  }

  /** The text after the dash that ends the timestamp of a batch code. */
  function CodeTail(code: string): Option<string>
  {
    if |code| < |CodePrefix| || code[..|CodePrefix|] != CodePrefix then None
    else
      var rest := code[|CodePrefix|..];
      var digits := BeforeDash(rest);
      if |digits| < |rest| then Some(rest[|digits| + 1..]) else None
  }

  /** A generated code carries the upper-cased random tail after its timestamp. */
  lemma QRCodeTailRoundTrip(nowMs: nat, randomBase36: string)
    requires forall k :: 0 <= k < |randomBase36| ==> IsBase36Char(randomBase36[k])
    ensures CodeTail(QRCode(nowMs, randomBase36)) == Some(Upper(SkipSeven(randomBase36)))
  {
    var code := QRCode(nowMs, randomBase36);
    var tail := Upper(SkipSeven(randomBase36));
    var rest := code[|CodePrefix|..];
    assert rest == Decimal(nowMs) + "-" + tail;
    BeforeDashOfDigits(Decimal(nowMs), tail);
    assert rest[|Decimal(nowMs)| + 1..] == tail;
  }

  /** Upper-casing one character is one-to-one on the base-36 alphabet. */
  lemma UpperCharInjective(a: char, b: char)
    requires IsBase36Char(a) && IsBase36Char(b) && UpperChar(a) == UpperChar(b)
    ensures a == b
  {
  }

  /** Upper-casing is one-to-one on the base-36 alphabet. */
  lemma UpperInjective(t1: string, t2: string)
    requires forall k :: 0 <= k < |t1| ==> IsBase36Char(t1[k])
    requires forall k :: 0 <= k < |t2| ==> IsBase36Char(t2[k])
    requires Upper(t1) == Upper(t2)
    ensures t1 == t2
  {
    forall k | 0 <= k < |t1|
      ensures t1[k] == t2[k]
    {
      assert UpperChar(t1[k]) == Upper(t1)[k] == Upper(t2)[k] == UpperChar(t2[k]);
      UpperCharInjective(t1[k], t2[k]);
    }
  }

  /** Two codes made at the same instant are equal only when their random tails are. */
  lemma QRCodeTailsDistinguish(nowMs: nat, r1: string, r2: string)
    requires forall k :: 0 <= k < |r1| ==> IsBase36Char(r1[k])
    requires forall k :: 0 <= k < |r2| ==> IsBase36Char(r2[k])
    requires QRCode(nowMs, r1) == QRCode(nowMs, r2)
    ensures SkipSeven(r1) == SkipSeven(r2)
  {
    var t1, t2 := SkipSeven(r1), SkipSeven(r2);
    assert Upper(t1) == Upper(t2) by {
      QRCodeTailRoundTrip(nowMs, r1);
      QRCodeTailRoundTrip(nowMs, r2);
    }
    assert forall k :: 0 <= k < |t1| ==> IsBase36Char(t1[k]) by {
      forall k | 0 <= k < |t1| ensures t1[k] == r1[7 + k] { }
    }
    assert forall k :: 0 <= k < |t2| ==> IsBase36Char(t2[k]) by {
      forall k | 0 <= k < |t2| ensures t2[k] == r2[7 + k] { }
    }
    UpperInjective(t1, t2);
  }
}
