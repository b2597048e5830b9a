/** The address `download` fetches a station's archive from and the name
    it saves it under. */
module Download {
  import opened Wrappers
  import opened Text

  const BaseUrl := "https://www1.ncdc.noaa.gov/pub/data/ghcn/daily/by_station/"
  const Suffix := ".csv.gz"

  /** The archive of station `id`. */
  function DownloadUrl(id: string): (url: string)
    ensures |url| == |BaseUrl| + |id| + |Suffix|
    ensures url[..|BaseUrl|] == BaseUrl && url[|url| - |Suffix|..] == Suffix
  {
    BaseUrl + id + Suffix
  }

  /** The station an archive address names, if it has the form above. */
  function StationOfUrl(url: string): (id: Option<string>)
    ensures id.Some? ==> |url| >= |BaseUrl| + |Suffix| && |id.value| == |url| - |BaseUrl| - |Suffix|
  {
    if |url| >= |BaseUrl| + |Suffix| && url[..|BaseUrl|] == BaseUrl && url[|url| - |Suffix|..] == Suffix
    then Some(url[|BaseUrl|..|url| - |Suffix|])
    else None
  }

  /** The address names its station: it reads back. */
  lemma UrlRoundTrip(id: string)
    ensures StationOfUrl(DownloadUrl(id)) == Some(id)
  {
    var url := DownloadUrl(id);
    assert url[|BaseUrl|..|url| - |Suffix|] == id;
  }

  /** Different stations have different addresses. */
  lemma UrlInjective(a: string, b: string)
    requires DownloadUrl(a) == DownloadUrl(b)
    ensures a == b
  {
    UrlRoundTrip(a);
    UrlRoundTrip(b);
  }

  /** The local time `datetime.now()` yields, as the fields the file name uses. */
  datatype Stamp = Stamp(year: nat, month: nat, day: nat, hour: nat, minute: nat, second: nat)

  predicate ValidStamp(t: Stamp) {
    1000 <= t.year <= 9999 && 1 <= t.month <= 12 && 1 <= t.day <= 31
    && t.hour < 24 && t.minute < 60 && t.second < 60
  }

  /** `n` in exactly `width` decimal digits, zero-padded. */
  function Padded(n: nat, width: nat): (r: string)
    ensures |r| == width && forall i :: 0 <= i < |r| ==> IsDigit(r[i])
  {
    if width == 0 then [] else Padded(n / 10, width - 1) + [DigitChar(n % 10)]
  }

  /** Reading digits back. */
  function DecimalValue(d: string): nat
    requires forall i :: 0 <= i < |d| ==> IsDigit(d[i])
  {
    if d == [] then 0 else DecimalValue(d[..|d| - 1]) * 10 + DigitValue(d[|d| - 1])
  }

  lemma {:induction false} PaddedValue(n: nat, width: nat)
    ensures DecimalValue(Padded(n, width)) == n % Power10(width)
  {
    if width > 0 {
      var r := Padded(n, width);
      assert r[..|r| - 1] == Padded(n / 10, width - 1);
      PaddedValue(n / 10, width - 1);
      DivModPower(n, width - 1);
    }
  }

  function Power10(k: nat): (p: nat)
    ensures p >= 1
  {
    if k == 0 then 1 else 10 * Power10(k - 1)
  }

  /** (n / 10) % 10^k * 10 + n % 10 == n % 10^(k+1) */
  lemma DivModPower(n: nat, k: nat)
    ensures (n / 10) % Power10(k) * 10 + n % 10 == n % Power10(k + 1)
  {
    var p := Power10(k);
    var q := (n / 10) / p;
    assert n / 10 == q * p + (n / 10) % p;
    assert n == (n / 10) * 10 + n % 10;
    assert n == q * (10 * p) + ((n / 10) % p * 10 + n % 10);
    assert 0 <= (n / 10) % p * 10 + n % 10 < 10 * p;
    ModUnique(n, q, (n / 10) % p * 10 + n % 10, 10 * p);
  }

  lemma ModUnique(n: nat, q: int, r: int, d: nat)
    requires d > 0 && 0 <= r < d && n == q * d + r
    ensures n % d == r
  {
    var q0, r0 := n / d, n % d;
    assert (q - q0) * d == r0 - r;
    if q > q0 {
      MulAtLeast(q - q0, d);
    } else if q < q0 {
      MulAtLeast(q0 - q, d);
    }
  }

  lemma MulAtLeast(k: int, d: nat)
    requires k >= 1
    ensures k * d >= d
  {
  }

  /** `"{:%Y%m%d-%H%M%S}"`: "YYYYMMDD-HHMMSS". */
  function StampText(t: Stamp): (r: string)
    ensures |r| == 15 && r[8] == '-'
    ensures forall i :: 0 <= i < 15 && i != 8 ==> IsDigit(r[i])
  {
    var d, c := DateText(t), ClockText(t);
    var r := d + "-" + c;
    assert forall i :: 0 <= i < 8 ==> r[i] == d[i];
    assert forall i :: 9 <= i < 15 ==> r[i] == c[i - 9];
    r
  }

  /** "YYYYMMDD" */
  function DateText(t: Stamp): (r: string)
    ensures |r| == 8 && forall i :: 0 <= i < 8 ==> IsDigit(r[i])
  {
    Padded(t.year, 4) + Padded(t.month, 2) + Padded(t.day, 2)
  }

  /** "HHMMSS" */
  function ClockText(t: Stamp): (r: string)
    ensures |r| == 6 && forall i :: 0 <= i < 6 ==> IsDigit(r[i])
  {
    Padded(t.hour, 2) + Padded(t.minute, 2) + Padded(t.second, 2)
  }

  /** The fields read back from a stamp text. */
  function StampOfText(s: string): Option<Stamp>
    requires |s| == 15
  {
    if (forall i :: 0 <= i < 15 && i != 8 ==> IsDigit(s[i])) && s[8] == '-' then
      Some(Stamp(DecimalValue(s[0..4]), DecimalValue(s[4..6]), DecimalValue(s[6..8]),
        DecimalValue(s[9..11]), DecimalValue(s[11..13]), DecimalValue(s[13..15])))
    else None
  }

  lemma PaddedExact(n: nat, width: nat)
    requires n < Power10(width)
    ensures DecimalValue(Padded(n, width)) == n
  {
    PaddedValue(n, width);
  }

  lemma Powers()
    ensures Power10(2) == 100 && Power10(4) == 10000
  {
    assert Power10(1) == 10;
    assert Power10(3) == 1000;
  }

  /** The date digits read back as the date. */
  lemma DateFields(t: Stamp)
    requires ValidStamp(t)
    ensures var d := DateText(t);
      DecimalValue(d[0..4]) == t.year && DecimalValue(d[4..6]) == t.month && DecimalValue(d[6..8]) == t.day
  {
    var d := DateText(t);
    Powers();
    PaddedExact(t.year, 4);
    PaddedExact(t.month, 2);
    PaddedExact(t.day, 2);
    assert d[0..4] == Padded(t.year, 4);
    assert d[4..6] == Padded(t.month, 2);
    assert d[6..8] == Padded(t.day, 2);
  }

  /** The clock digits read back as the time of day. */
  lemma ClockFields(t: Stamp)
    requires ValidStamp(t)
    ensures var c := ClockText(t);
      DecimalValue(c[0..2]) == t.hour && DecimalValue(c[2..4]) == t.minute && DecimalValue(c[4..6]) == t.second
  {
    var c := ClockText(t);
    Powers();
    PaddedExact(t.hour, 2);
    PaddedExact(t.minute, 2);
    PaddedExact(t.second, 2);
    assert c[0..2] == Padded(t.hour, 2);
    assert c[2..4] == Padded(t.minute, 2);
    assert c[4..6] == Padded(t.second, 2);
  }

  /** The stamp text of a valid time reads back as that time. */
  lemma StampRoundTrip(t: Stamp)
    requires ValidStamp(t)
    ensures StampOfText(StampText(t)) == Some(t)
  {
    var s, d, c := StampText(t), DateText(t), ClockText(t);
    DateFields(t);
    ClockFields(t);
    assert s[0..4] == d[0..4] && s[4..6] == d[4..6] && s[6..8] == d[6..8];
    assert s[9..11] == c[0..2] && s[11..13] == c[2..4] && s[13..15] == c[4..6];
    forall i | 0 <= i < 15 && i != 8 ensures IsDigit(s[i]) {
      if i < 8 {
        assert s[i] == d[i];
      } else {
        assert s[i] == c[i - 9];
      }
    }
  }

  /** The file name: the bare station id when overwriting is chosen, or the
      id followed by the time of the download. */
  function SaveName(id: string, overwrite: bool, now: Stamp): (name: string)
    ensures overwrite ==> |name| == |id| + |Suffix|
    ensures !overwrite ==> |name| == |id| + 16 + |Suffix|
    ensures name[..|id|] == id && name[|name| - |Suffix|..] == Suffix
    ensures !overwrite ==> name[|id|..|id| + 16] == "_" + StampText(now)
  {
    if overwrite then id + Suffix else id + "_" + StampText(now) + Suffix
  }

  /** With overwriting off, the name records the station and the time: two
      downloads at different (valid) times never share a name. */
  lemma SaveNameDistinct(a: string, b: string, s: Stamp, t: Stamp)
    requires ValidStamp(s) && ValidStamp(t)
    requires SaveName(a, false, s) == SaveName(b, false, t)
    ensures a == b && s == t
  {
    var n := SaveName(a, false, s);
    assert |a| == |b|;
    assert a == n[..|a|] && b == n[..|b|];
    assert StampText(s) == n[|a| + 1..|a| + 16];
    assert StampText(t) == n[|b| + 1..|b| + 16];
    StampRoundTrip(s);
    StampRoundTrip(t);
  }
}
