// Choosing the best enclosure of a feed entry (util.py: cmp_enclosures,
// get_first_video_enclosure and their helpers).

module UtilEnclosure {
  import opened Base

  /** The fields of a feed enclosure that the choice looks at; each may be missing. */
  datatype Enclosure = Enclosure(
    isDefault: Option<string>,
    typ: Option<string>,
    filesize: Option<string>,
    bitrate: Option<string>)

  // ---------------------------------------------------------- preferred types

  /** PREFERRED_TYPES, most preferred first. */
  const PreferredTypes: seq<string> := [
    "application/x-bittorrent",
    "application/ogg", "video/ogg", "audio/ogg",
    "video/mp4", "video/quicktime", "video/mpeg",
    "video/x-xvid", "video/x-divx", "video/x-wmv",
    "video/x-msmpeg", "video/x-flv"]

  /** The position of `t` in `types`, or |types| when it is absent. */
  function IndexOf(types: seq<string>, t: string): (i: nat)
    ensures i <= |types|
    ensures i < |types| ==> types[i] == t
    ensures forall j :: 0 <= j < i ==> types[j] != t
  {
    if types == [] then 0
    else if types[0] == t then 0
    else 1 + IndexOf(types[1..], t)
  }

  /**
   * _get_enclosure_index: 12 for the most preferred type, down to 1 for the
   * least; 0 for a missing or unknown type.
   */
  function TypeIndex(t: Option<string>): (r: nat)
    ensures r <= |PreferredTypes|
    ensures r > 0 <==> t.Some? && t.value in PreferredTypes
    ensures r > 0 ==> PreferredTypes[|PreferredTypes| - r] == t.value
  {
    if t.None? then 0 else |PreferredTypes| - IndexOf(PreferredTypes, t.value)
  }

  /** A more preferred type gets a larger index. */
  lemma TypeIndexOrder(i: nat, j: nat)
    requires i < j < |PreferredTypes|
    ensures TypeIndex(Some(PreferredTypes[i])) > TypeIndex(Some(PreferredTypes[j]))
  {
    assert forall a, b :: 0 <= a < b < |PreferredTypes| ==> PreferredTypes[a] != PreferredTypes[b];
  }

  // ------------------------------------------------------------ digit strings

  predicate IsDigit(c: char) { '0' <= c <= '9' }

  predicate AllDigits(s: string)
  {
    forall i :: 0 <= i < |s| ==> IsDigit(s[i])
  }

  function DigitValue(s: string): nat
    requires AllDigits(s)
  {
    if s == [] then 0
    else DigitValue(s[..|s| - 1]) * 10 + (s[|s| - 1] as int - '0' as int)
  }

  /** The decimal spelling of a number, the inverse of the parse. */
  function Decimal(n: nat): (s: string)
    ensures |s| > 0 && AllDigits(s)
  {
    if n < 10 then [('0' as int + n) as char]
    else Decimal(n / 10) + [('0' as int + n % 10) as char]
  }

  /** `s.isdigit()` then `int(s)`: a non-empty run of digits, else None. */
  function ParseSize(field: Option<string>): (r: Option<nat>)
    ensures r.Some? <==> field.Some? && |field.value| > 0 && AllDigits(field.value)
  {
    if field.Some? && |field.value| > 0 && AllDigits(field.value) then Some(DigitValue(field.value))
    else None
  }

  lemma {:induction false} DecimalRoundTrip(n: nat)
    ensures ParseSize(Some(Decimal(n))) == Some(n)
    decreases n
  {
    var s := Decimal(n);
    var d := ('0' as int + n % 10) as char;
    assert d as int - '0' as int == n % 10;
    if n >= 10 {
      DecimalRoundTrip(n / 10);
      assert s[..|s| - 1] == Decimal(n / 10) && s[|s| - 1] == d;
      assert DigitValue(s) == (n / 10) * 10 + n % 10;
    } else {
      assert s == [d] && s[..0] == [];
      assert DigitValue(s) == DigitValue([]) * 10 + n % 10;
    }
  }

  // ----------------------------------------------- Python 2 `cmp` on the keys

  function Sign(x: int): int
  {
    if x < 0 then -1 else if x > 0 then 1 else 0
  }

  /** Strings compare by code point, a proper prefix first. */
  function CmpStr(a: string, b: string): (r: int)
    ensures r == 0 <==> a == b
    ensures -1 <= r <= 1
  {
    if a == [] && b == [] then 0
    else if a == [] then -1
    else if b == [] then 1
    else if a[0] != b[0] then Sign(a[0] as int - b[0] as int)
    else
      assert a == [a[0]] + a[1..] && b == [b[0]] + b[1..];
      CmpStr(a[1..], b[1..])
  }

  /** None is below every value. */
  function CmpOptStr(a: Option<string>, b: Option<string>): int
  {
    match (a, b)
    case (None, None) => 0
    case (None, _) => -1
    case (_, None) => 1
    case (Some(x), Some(y)) => CmpStr(x, y)
  }

  function CmpOptNat(a: Option<nat>, b: Option<nat>): int
  {
    match (a, b)
    case (None, None) => 0
    case (None, _) => -1
    case (_, None) => 1
    case (Some(x), Some(y)) => Sign(x - y)
  }

  /** The tuple (isDefault, type index, bitrate, size) of an enclosure. */
  datatype Key = Key(isDefault: Option<string>, index: nat, bitrate: Option<nat>, size: Option<nat>)

  function KeyOf(e: Enclosure): Key
  {
    Key(e.isDefault, TypeIndex(e.typ), ParseSize(e.bitrate), ParseSize(e.filesize))
  }

  /** Tuples compare field by field; the first difference decides. */
  function CmpKey(a: Key, b: Key): int
  {
    var c1 := CmpOptStr(a.isDefault, b.isDefault);
    if c1 != 0 then c1
    else if a.index != b.index then Sign(a.index - b.index)
    else
      var c3 := CmpOptNat(a.bitrate, b.bitrate);
      if c3 != 0 then c3 else CmpOptNat(a.size, b.size)
  }

  /**
   * cmp_enclosures: negative when `e1` is preferred. The keys are compared
   * the other way round, so the larger key comes first.
   */
  function CmpEnclosures(e1: Enclosure, e2: Enclosure): (r: int)
    ensures -1 <= r <= 1
    ensures r == 0 <==> KeyOf(e1) == KeyOf(e2)
  {
    CmpKey(KeyOf(e2), KeyOf(e1))
  }

  // ------------------------------------------------ cmp is a total preorder

  lemma {:induction false} CmpStrAntisymmetric(a: string, b: string)
    ensures CmpStr(a, b) == -CmpStr(b, a)
    decreases |a|
  {
    if a != [] && b != [] && a[0] == b[0] {
      CmpStrAntisymmetric(a[1..], b[1..]);
    }
  }

  lemma {:induction false} CmpStrTransitive(a: string, b: string, c: string)
    requires CmpStr(a, b) < 0 && CmpStr(b, c) < 0
    ensures CmpStr(a, c) < 0
    decreases |a|
  {
    if a != [] && b != [] && c != [] && a[0] == b[0] && b[0] == c[0] {
      CmpStrTransitive(a[1..], b[1..], c[1..]);
    }
  }

  lemma CmpOptStrLaws(a: Option<string>, b: Option<string>, c: Option<string>)
    ensures CmpOptStr(a, b) == -CmpOptStr(b, a)
    ensures CmpOptStr(a, b) == 0 <==> a == b
    ensures CmpOptStr(a, b) < 0 && CmpOptStr(b, c) < 0 ==> CmpOptStr(a, c) < 0
  {
    if a.Some? && b.Some? {
      CmpStrAntisymmetric(a.value, b.value);
      if c.Some? && CmpOptStr(a, b) < 0 && CmpOptStr(b, c) < 0 {
        CmpStrTransitive(a.value, b.value, c.value);
      }
    }
  }

  lemma CmpKeyLaws(a: Key, b: Key, c: Key)
    ensures CmpKey(a, b) == -CmpKey(b, a)
    ensures CmpKey(a, b) == 0 <==> a == b
    ensures CmpKey(a, b) <= 0 && CmpKey(b, c) <= 0 ==> CmpKey(a, c) <= 0
  {
    CmpOptStrLaws(a.isDefault, b.isDefault, c.isDefault);
    CmpOptStrLaws(b.isDefault, a.isDefault, c.isDefault);
    CmpOptStrLaws(a.isDefault, c.isDefault, b.isDefault);
    CmpOptStrLaws(b.isDefault, c.isDefault, a.isDefault);
  }

  /** cmp_enclosures is antisymmetric and transitive, so sorting by it is well defined. */
  lemma CmpEnclosuresLaws(e1: Enclosure, e2: Enclosure, e3: Enclosure)
    ensures CmpEnclosures(e1, e2) == -CmpEnclosures(e2, e1)
    ensures CmpEnclosures(e1, e1) == 0
    ensures CmpEnclosures(e1, e2) <= 0 && CmpEnclosures(e2, e3) <= 0 ==> CmpEnclosures(e1, e3) <= 0
  {
    CmpKeyLaws(KeyOf(e3), KeyOf(e2), KeyOf(e1));
    CmpKeyLaws(KeyOf(e2), KeyOf(e1), KeyOf(e3));
  }

  /** With everything else equal, the bigger file is preferred; a number beats no number. */
  lemma CmpPrefersBiggerFile(e1: Enclosure, e2: Enclosure)
    requires e1.isDefault == e2.isDefault && e1.typ == e2.typ && e1.bitrate == e2.bitrate
    ensures var s1 := ParseSize(e1.filesize); var s2 := ParseSize(e2.filesize);
      CmpEnclosures(e1, e2) < 0 <==>
        (s1.Some? && (s2.None? || s1.value > s2.value))
  {
  }

  /** With no isDefault on either side, a more preferred type wins whatever the sizes. */
  lemma CmpPrefersType(e1: Enclosure, e2: Enclosure)
    requires e1.isDefault.None? && e2.isDefault.None?
    requires TypeIndex(e1.typ) > TypeIndex(e2.typ)
    ensures CmpEnclosures(e1, e2) < 0
  {
  }

  // ------------------------------------------------- get_first_video_enclosure

  function Filter(s: seq<Enclosure>, isVideo: Enclosure -> bool): (r: seq<Enclosure>)
    ensures forall e :: e in r <==> e in s && isVideo(e)
    ensures |r| <= |s|
  {
    if s == [] then []
    else (if isVideo(s[0]) then [s[0]] else []) + Filter(s[1..], isVideo)
  }

  /** No element beats `s[i]`, and every element before it is strictly worse. */
  predicate FirstBest(s: seq<Enclosure>, i: int)
  {
    0 <= i < |s| &&
    (forall j :: 0 <= j < |s| ==> CmpEnclosures(s[i], s[j]) <= 0) &&
    (forall j :: 0 <= j < i ==> CmpEnclosures(s[j], s[i]) > 0)
  }

  /**
   * The position a stable sort by cmp_enclosures moves to the front: an
   * element no other beats, with every element before it strictly beaten.
   */
  function BestIndex(s: seq<Enclosure>): (i: nat)
    requires |s| > 0
    ensures i < |s|
    ensures forall j :: 0 <= j < |s| ==> CmpEnclosures(s[i], s[j]) <= 0
    ensures forall j :: 0 <= j < i ==> CmpEnclosures(s[j], s[i]) > 0
  {
    if |s| == 1 then 0
    else
      var last := |s| - 1;
      var b := BestIndex(s[..last]);
      BestOfPrefix(s, s[..last], b);
      if CmpEnclosures(s[last], s[b]) < 0 then
        BestLastWins(s, b);
        last
      else
        BestKeeps(s, b);
        b
  }

  /** What holds of the best of all but the last element holds of it within the whole sequence. */
  lemma BestOfPrefix(s: seq<Enclosure>, p: seq<Enclosure>, b: nat)
    requires |s| > 1 && p == s[..|s| - 1] && b < |p|
    requires forall j :: 0 <= j < |p| ==> CmpEnclosures(p[b], p[j]) <= 0
    requires forall j :: 0 <= j < b ==> CmpEnclosures(p[j], p[b]) > 0
    ensures forall j :: 0 <= j < |s| - 1 ==> CmpEnclosures(s[b], s[j]) <= 0
    ensures forall j :: 0 <= j < b ==> CmpEnclosures(s[j], s[b]) > 0
  {
    assert forall j :: 0 <= j < |p| ==> p[j] == s[j];
  }

  /** When the last element does not beat the best of the rest, that best stays best. */
  lemma BestKeeps(s: seq<Enclosure>, b: nat)
    requires b < |s| - 1
    requires forall j :: 0 <= j < |s| - 1 ==> CmpEnclosures(s[b], s[j]) <= 0
    requires CmpEnclosures(s[|s| - 1], s[b]) >= 0
    ensures forall j :: 0 <= j < |s| ==> CmpEnclosures(s[b], s[j]) <= 0
  {
    CmpEnclosuresLaws(s[|s| - 1], s[b], s[b]);
  }

  lemma BestLastWins(s: seq<Enclosure>, b: nat)
    requires b < |s| - 1
    requires forall j :: 0 <= j < |s| - 1 ==> CmpEnclosures(s[b], s[j]) <= 0
    requires CmpEnclosures(s[|s| - 1], s[b]) < 0
    ensures forall j :: 0 <= j < |s| ==> CmpEnclosures(s[|s| - 1], s[j]) <= 0
    ensures forall j :: 0 <= j < |s| - 1 ==> CmpEnclosures(s[j], s[|s| - 1]) > 0
  {
    var last := |s| - 1;
    CmpEnclosuresLaws(s[last], s[last], s[last]);
    forall j | 0 <= j < last
      ensures CmpEnclosures(s[last], s[j]) < 0
    {
      StrictlyBetter(s[last], s[b], s[j]);
    }
    forall j | 0 <= j < last
      ensures CmpEnclosures(s[j], s[last]) > 0
    {
      CmpEnclosuresLaws(s[j], s[last], s[j]);
    }
  }

  /** Strictly better than an element no worse than a third is strictly better than the third. */
  lemma StrictlyBetter(a: Enclosure, b: Enclosure, c: Enclosure)
    requires CmpEnclosures(a, b) < 0 && CmpEnclosures(b, c) <= 0
    ensures CmpEnclosures(a, c) < 0
  {
    CmpEnclosuresLaws(a, b, c);
    CmpEnclosuresLaws(b, c, a);
    CmpEnclosuresLaws(c, a, b);
  }

  /**
   * get_first_video_enclosure: None when the entry has no enclosure list or
   * no video enclosure; otherwise the best video enclosure, the earliest of
   * equally good ones.
   */
  function GetFirstVideoEnclosure(enclosures: Option<seq<Enclosure>>, isVideo: Enclosure -> bool)
    : (r: Option<Enclosure>)
    ensures r.None? <==> enclosures.None? || forall e :: e in enclosures.value ==> !isVideo(e)
    ensures r.Some? ==> exists i ::
      (FirstBest(Filter(enclosures.value, isVideo), i) && r.value == Filter(enclosures.value, isVideo)[i])
  {
    if enclosures.None? then None
    else
      var v := Filter(enclosures.value, isVideo);
      if |v| == 0 then None
      else
        var i := BestIndex(v);
        assert v[0] in v && v[i] in v;
        assert isVideo(v[0]) && v[0] in enclosures.value;
        assert FirstBest(v, i);
        Some(v[i])
  }
}
