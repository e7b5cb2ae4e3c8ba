/**
  The `Steam` converter: Steam64 numbers, legacy `STEAM_0:Y:Z` text, Steam3
  `[U:1:W]` text, and the local parts of vanity-URL resolution (building the
  request URL, and turning the decoded `{steamid, success}` response into a
  number). Every operation is a function of its inputs; a Go index panic is a
  `Panicked` result, a Go `(value, error)` pair a `Ret`.
 */
module SteamIdConverter {
  import opened GoStd

  /** The account-universe base: the Steam64 number of legacy account `STEAM_0:0:0`. */
  const AccountBase: uint64 := 76561197960265728

  /** The converter's read-only state; the HTTP client it also holds is not modelled. */
  datatype Steam = Steam(apikey: string, identifier: uint64)

  /** The decoded `response` object of the vanity-resolution reply. */
  datatype ResponseData = ResponseData(steamid: string, success: int)

  /** The request URL up to the key parameter's value. */
  const VanityEndpoint: string := "http://api.steampowered.com/ISteamUser/ResolveVanityURL/v0001/?key="

  /** `New(apikey)`: keeps the key and installs the base, which is even. */
  function New(apikey: string): (s: Steam)
    ensures s.apikey == apikey
    ensures s.identifier == AccountBase && s.identifier % 2 == 0 && s.identifier > 0
  {
    Steam(apikey, AccountBase)
  }

  // ---------------------------------------------------------------------------
  // Steam64 -> STEAM_0:Y:Z

  /**
    `ConvertToText`: `Y` is the low bit of `w` and `Z` is `(w - Y - base) / 2` in
    uint64 arithmetic, printed as `STEAM_0:Y:Z`. Total: a `w` below the base
    wraps instead of failing.
   */
  function ConvertToText(s: Steam, w: uint64): (text: string)
    ensures |text| >= 11 && text[..8] == "STEAM_0:" && text[9] == ':'
    ensures text[8] == if w % 2 == 0 then '0' else '1'
  {
    var y := w % 2;
    var z := Sub64(Sub64(w, y), s.identifier) / 2;
    "STEAM_0:" + FormatUint(y) + ":" + FormatUint(z)
  }

  /** Splitting `a:b:c` with colon-free parts gives back the three parts. */
  lemma ThreeSegments(a: string, b: string, c: string)
    requires ':' !in a && ':' !in b && ':' !in c
    ensures Split(a + ":" + b + ":" + c, ':') == [a, b, c]
  {
    JoinSplit([a, b, c], ':');
    assert Join([c], ':') == c;
    assert Join([b, c], ':') == b + [':'] + c;
    assert Join([a, b, c], ':') == a + [':'] + (b + [':'] + c);
    assert a + ":" + b + ":" + c == a + [':'] + (b + [':'] + c);
  }

  /** The literal prefix `STEAM_0:` is segment `STEAM_0` followed by a colon. */
  lemma LegacyPrefix(yText: string, zText: string)
    ensures "STEAM_0:" + yText + ":" + zText == "STEAM_0" + ":" + yText + ":" + zText
    ensures ':' !in "STEAM_0"
  {
    assert "STEAM_0:" == "STEAM_0" + ":";
  }

  lemma DigitsNoColon(t: string)
    requires AllDigits(t)
    ensures ':' !in t
  {
    forall i | 0 <= i < |t| ensures t[i] != ':' {
      assert IsDigit(t[i]);
    }
  }

  /**
    The arithmetic behind the round trip: with an even base `v`, `Y = w % 2` and
    `Z = (w - Y - v) / 2` in uint64 arithmetic give back `w` as `Z*2 + v + Y`
    modulo 2^64, and exactly when `w` is at least `v`.
   */
  lemma LowBitIndexArithmetic(w: uint64, v: uint64)
    requires v % 2 == 0
    ensures var y := w % 2;
      var z := Sub64(Sub64(w, y), v) / 2;
      && (2 * z + v + y) % Modulus == w
      && (v <= w ==> 2 * z + v + y == w)
  {
    var y := w % 2;
    var d := Sub64(Sub64(w, y), v);
    if v <= w - y {
      assert d == w - y - v;
    } else {
      assert d == w - y - v + Modulus;
      assert w < v;
    }
    assert d % 2 == 0;
  }

  /**
    The legacy text of any `w` has exactly three colon-separated segments: the
    literal `STEAM_0`, the low bit of `w` as one digit, and a canonical decimal
    `Z`. With an even base, `2*Z + base + Y` recovers `w` modulo 2^64, and
    exactly (no wrap-around) when `w` is at least the base. `Z` is below 2^63,
    which makes it the only index with that property.
   */
  lemma {:induction false} LegacyTextParts(s: Steam, w: uint64)
    ensures var parts := Split(ConvertToText(s, w), ':');
      && |parts| == 3
      && parts[0] == "STEAM_0"
      && parts[1] == (if w % 2 == 0 then "0" else "1")
      && Canonical(parts[2])
      && DecValue(parts[2]) < Modulus / 2
      && (s.identifier % 2 == 0 ==>
            (2 * DecValue(parts[2]) + s.identifier + w % 2) % Modulus == w)
      && (s.identifier % 2 == 0 && s.identifier <= w ==>
            2 * DecValue(parts[2]) + s.identifier + w % 2 == w)
  {
    var y := w % 2;
    var z := Sub64(Sub64(w, y), s.identifier) / 2;
    var yText, zText := FormatUint(y), FormatUint(z);
    DigitsNoColon(yText);
    DigitsNoColon(zText);
    LegacyPrefix(yText, zText);
    ThreeSegments("STEAM_0", yText, zText);
    assert ConvertToText(s, w) == "STEAM_0:" + yText + ":" + zText;
    assert yText == (if y == 0 then "0" else "1");
    if s.identifier % 2 == 0 {
      LowBitIndexArithmetic(w, s.identifier);
    }
  }

  // ---------------------------------------------------------------------------
  // Parsing STEAM_X:Y:Z, shared by ConvertTo64 and ConvertToSteam3

  /** The two numbers read from legacy text. */
  datatype LowBitAndIndex = LowBitAndIndex(y: uint64, z: uint64)

  /**
    The parsing steps both text conversions perform: split on `:`, parse
    segment 2 (`Z`) and then segment 1 (`Y`) with `ParseUint`. Indexing segment
    2 panics when the text has fewer than two colons; the first parse error is
    the one reported. Segment 0 and any segment after 2 are not looked at.
   */
  function ParseLegacyText(text: string): (r: Call<Ret<LowBitAndIndex>>)
    ensures r.Panicked? <==> Count(text, ':') < 2
    ensures r.Panicked? <==> |Split(text, ':')| < 3
    ensures |Split(text, ':')| >= 3 ==>
      var parts := Split(text, ':');
      && r.Returned?
      && (r.result.err == None <==> Uint64Text(parts[2]) && Uint64Text(parts[1]))
      && (!Uint64Text(parts[2]) ==> r.result.err == ParseUint(parts[2]).err)
      && (Uint64Text(parts[2]) ==> r.result.err == ParseUint(parts[1]).err)
      && (r.result.err != None ==> r.result.value == LowBitAndIndex(0, 0))
      && (r.result.err == None ==>
            r.result.value == LowBitAndIndex(DecValue(parts[1]), DecValue(parts[2])))
  {
    SplitJoin(text, ':');
    var sidSlice := Split(text, ':');
    if |sidSlice| < 3 then
      Panicked
    else
      var z := ParseUint(sidSlice[2]);
      if z.err != None then
        Returned(Ret(LowBitAndIndex(0, 0), z.err))
      else
        var y := ParseUint(sidSlice[1]);
        if y.err != None then
          Returned(Ret(LowBitAndIndex(0, 0), y.err))
        else
          Returned(Ret(LowBitAndIndex(y.value, z.value), None))
  }

  /**
    Only segments 1 and 2 are read: two texts with at least three segments that
    agree on those two parse alike, whatever their first and later segments.
   */
  lemma OnlyMiddleSegmentsRead(a: string, b: string)
    requires |Split(a, ':')| >= 3 && |Split(b, ':')| >= 3
    requires Split(a, ':')[1] == Split(b, ':')[1] && Split(a, ':')[2] == Split(b, ':')[2]
    ensures ParseLegacyText(a) == ParseLegacyText(b)
  {
  }

  /** Legacy text `head:Y:Z` with colon-free parts parses as its two numeric segments. */
  lemma ParseThreeSegments(head: string, yText: string, zText: string)
    requires ':' !in head && ':' !in yText && ':' !in zText
    ensures var r := ParseLegacyText(head + ":" + yText + ":" + zText);
      && r.Returned?
      && (r.result.err == None <==> Uint64Text(zText) && Uint64Text(yText))
      && (!Uint64Text(zText) ==> r.result.err == ParseUint(zText).err)
      && (Uint64Text(zText) ==> r.result.err == ParseUint(yText).err)
      && (r.result.err == None ==> r.result.value == LowBitAndIndex(DecValue(yText), DecValue(zText)))
  {
    ThreeSegments(head, yText, zText);
  }

  /**
    A first segment other than `STEAM_0`, and anything after a third colon, make
    no difference to parsing.
   */
  lemma {:induction false} ExtraSegmentsIgnored(head: string, yText: string, zText: string, tail: string)
    requires ':' !in head && ':' !in yText && ':' !in zText
    ensures ParseLegacyText(head + ":" + yText + ":" + zText + ":" + tail)
         == ParseLegacyText("STEAM_0:" + yText + ":" + zText)
  {
    var longer := head + ":" + yText + ":" + zText + ":" + tail;
    var rest := zText + [':'] + tail;
    assert longer == head + [':'] + (yText + [':'] + rest);
    SplitAppend(head, ':', yText + [':'] + rest);
    SplitAppend(yText, ':', rest);
    SplitAppend(zText, ':', tail);
    SplitNoSep(head, ':');
    SplitNoSep(yText, ':');
    SplitNoSep(zText, ':');
    assert Split(longer, ':') == [head] + ([yText] + ([zText] + Split(tail, ':')));
    LegacyPrefix(yText, zText);
    ThreeSegments("STEAM_0", yText, zText);
    OnlyMiddleSegmentsRead(longer, "STEAM_0:" + yText + ":" + zText);
  }

  // ---------------------------------------------------------------------------
  // STEAM_X:Y:Z -> Steam64

  /**
    `ConvertTo64`: `Z*2 + base + Y` in uint64 arithmetic once both segments
    parse; a parse error is returned with the value 0, and too few segments
    panic.
   */
  function ConvertTo64(s: Steam, text: string): (r: Call<Ret<uint64>>)
    ensures r.Panicked? <==> Count(text, ':') < 2
    ensures r.Returned? ==>
      var p := ParseLegacyText(text).result;
      && r.result.err == p.err
      && (r.result.err != None ==> r.result.value == 0)
      && (r.result.err == None ==>
            r.result.value == (2 * p.value.z + s.identifier + p.value.y) % Modulus)
  {
    match ParseLegacyText(text)
    case Panicked => Panicked
    case Returned(Ret(p, err)) =>
      if err != None then
        Returned(Ret(0, err))
      else
        AddMod(2 * p.z, s.identifier);
        AddMod(2 * p.z + s.identifier, p.y);
        Returned(Ret(Add64(Add64(Double64(p.z), s.identifier), p.y), None))
  }

  /** `ConvertTo64` on three colon-free segments whose last two are valid numbers. */
  lemma ConvertTo64Segments(s: Steam, head: string, yText: string, zText: string)
    requires ':' !in head && ':' !in yText && ':' !in zText
    requires Uint64Text(yText) && Uint64Text(zText)
    ensures ConvertTo64(s, head + ":" + yText + ":" + zText)
         == Returned(Ret((2 * DecValue(zText) + s.identifier + DecValue(yText)) % Modulus, None))
  {
    ParseThreeSegments(head, yText, zText);
    SplitJoin(head + ":" + yText + ":" + zText, ':');
    ThreeSegments(head, yText, zText);
  }

  /**
    Round trip: with an even base, converting any Steam64 number to legacy text
    and back succeeds and yields the number, for every uint64 (below the base the
    wrap-around in both directions cancels out).
   */
  lemma {:induction false} TextRoundTrip(s: Steam, w: uint64)
    requires s.identifier % 2 == 0
    ensures ConvertTo64(s, ConvertToText(s, w)) == Returned(Ret(w, None))
  {
    var y := w % 2;
    var z := Sub64(Sub64(w, y), s.identifier) / 2;
    var yText, zText := FormatUint(y), FormatUint(z);
    DigitsNoColon(yText);
    DigitsNoColon(zText);
    ParseFormatUint(y);
    ParseFormatUint(z);
    LowBitIndexArithmetic(w, s.identifier);
    calc {
      ConvertTo64(s, ConvertToText(s, w));
      ConvertTo64(s, "STEAM_0:" + yText + ":" + zText);
      { LegacyPrefix(yText, zText); }
      ConvertTo64(s, "STEAM_0" + ":" + yText + ":" + zText);
      { ConvertTo64Segments(s, "STEAM_0", yText, zText); }
      Returned(Ret((2 * z + s.identifier + y) % Modulus, None));
      Returned(Ret(w, None));
    }
  }

  /** The round trip for the converter `New` builds. */
  lemma NewTextRoundTrip(apikey: string, w: uint64)
    ensures ConvertTo64(New(apikey), ConvertToText(New(apikey), w)) == Returned(Ret(w, None))
  {
    TextRoundTrip(New(apikey), w);
  }

  /**
    The other direction: canonical legacy text (`Y` is `0` or `1`, `Z` has no
    leading zeros) whose number does not overflow converts to that number and
    back to the same text.
   */
  lemma {:induction false} NumberRoundTrip(s: Steam, yText: string, zText: string)
    requires s.identifier % 2 == 0
    requires yText == "0" || yText == "1"
    requires Canonical(zText)
    requires 2 * DecValue(zText) + s.identifier + DecValue(yText) < Modulus
    ensures var text := "STEAM_0:" + yText + ":" + zText;
      var r := ConvertTo64(s, text);
      && r == Returned(Ret(2 * DecValue(zText) + s.identifier + DecValue(yText), None))
      && ConvertToText(s, r.result.value) == text
  {
    var text := "STEAM_0:" + yText + ":" + zText;
    DigitsNoColon(zText);
    DigitsNoColon(yText);
    var y := DecValue(yText);
    assert yText == [yText[0]];
    DecValueDigit(yText[0]);
    assert y == (if yText == "0" then 0 else 1);
    var w := 2 * DecValue(zText) + s.identifier + y;
    LegacyPrefix(yText, zText);
    ConvertTo64Segments(s, "STEAM_0", yText, zText);
    assert ConvertTo64(s, text) == Returned(Ret(w, None));
    assert w % 2 == y;
    assert Sub64(Sub64(w, y), s.identifier) / 2 == DecValue(zText);
    FormatDecValue(zText);
    assert FormatUint(y) == yText;
  }

  /**
    `Z*2` wraps silently: an index `Z` of 2^63 or more names the same number as
    `Z - 2^63`, so distinct legacy texts convert to the same Steam64 number.
   */
  lemma IndexWrapsAround(s: Steam, yText: string, zText: string)
    requires ':' !in yText && Uint64Text(yText)
    requires Uint64Text(zText) && DecValue(zText) >= Modulus / 2
    ensures var smaller := FormatUint(DecValue(zText) - Modulus / 2);
      && smaller != zText
      && ConvertTo64(s, "STEAM_0:" + yText + ":" + zText)
         == ConvertTo64(s, "STEAM_0:" + yText + ":" + smaller)
  {
    var z, y := DecValue(zText), DecValue(yText);
    var smaller := FormatUint(z - Modulus / 2);
    assert DecValue(smaller) != z;
    DigitsNoColon(zText);
    DigitsNoColon(smaller);
    ParseFormatUint(z - Modulus / 2);
    var t := 2 * (z - Modulus / 2) + s.identifier + y;
    assert (t + Modulus) % Modulus == t % Modulus;
    calc {
      ConvertTo64(s, "STEAM_0:" + yText + ":" + zText);
      { LegacyPrefix(yText, zText); }
      ConvertTo64(s, "STEAM_0" + ":" + yText + ":" + zText);
      { ConvertTo64Segments(s, "STEAM_0", yText, zText); }
      Returned(Ret((t + Modulus) % Modulus, None));
      Returned(Ret(t % Modulus, None));
      { ConvertTo64Segments(s, "STEAM_0", yText, smaller); }
      ConvertTo64(s, "STEAM_0" + ":" + yText + ":" + smaller);
      { LegacyPrefix(yText, smaller); }
      ConvertTo64(s, "STEAM_0:" + yText + ":" + smaller);
    }
  }

  /**
    `Y` is not checked to be 0 or 1: a low bit of 2 or more carries into the
    index, so `STEAM_0:Y:Z` and `STEAM_0:Y-2:Z+1` name the same number.
   */
  lemma LowBitNotChecked(s: Steam, yText: string, zText: string)
    requires Uint64Text(yText) && DecValue(yText) >= 2
    requires Uint64Text(zText) && DecValue(zText) + 1 < Modulus
    ensures var lower, next := FormatUint(DecValue(yText) - 2), FormatUint(DecValue(zText) + 1);
      && lower != yText
      && ConvertTo64(s, "STEAM_0:" + yText + ":" + zText)
         == ConvertTo64(s, "STEAM_0:" + lower + ":" + next)
  {
    var z, y := DecValue(zText), DecValue(yText);
    var lower, next := FormatUint(y - 2), FormatUint(z + 1);
    assert DecValue(lower) != y;
    DigitsNoColon(yText);
    DigitsNoColon(zText);
    DigitsNoColon(lower);
    DigitsNoColon(next);
    ParseFormatUint(y - 2);
    ParseFormatUint(z + 1);
    calc {
      ConvertTo64(s, "STEAM_0:" + yText + ":" + zText);
      { LegacyPrefix(yText, zText); }
      ConvertTo64(s, "STEAM_0" + ":" + yText + ":" + zText);
      { ConvertTo64Segments(s, "STEAM_0", yText, zText); }
      Returned(Ret((2 * z + s.identifier + y) % Modulus, None));
      Returned(Ret((2 * (z + 1) + s.identifier + (y - 2)) % Modulus, None));
      { ConvertTo64Segments(s, "STEAM_0", lower, next); }
      ConvertTo64(s, "STEAM_0" + ":" + lower + ":" + next);
      { LegacyPrefix(lower, next); }
      ConvertTo64(s, "STEAM_0:" + lower + ":" + next);
    }
  }

  // ---------------------------------------------------------------------------
  // STEAM_X:Y:Z -> [U:1:W]

  /**
    `ConvertToSteam3`: `W = Z*2 + Y` (the base is not added) printed as
    `[U:1:W]`; a parse error is returned with the empty string, and too few
    segments panic.
   */
  function ConvertToSteam3(s: Steam, text: string): (r: Call<Ret<string>>)
    ensures r.Panicked? <==> Count(text, ':') < 2
    ensures r.Returned? ==>
      var p := ParseLegacyText(text).result;
      && r.result.err == p.err
      && (r.result.err != None ==> r.result.value == "")
      && (r.result.err == None ==>
            r.result.value == "[U:1:" + FormatUint((2 * p.value.z + p.value.y) % Modulus) + "]")
  {
    match ParseLegacyText(text)
    case Panicked => Panicked
    case Returned(Ret(p, err)) =>
      if err != None then
        Returned(Ret("", err))
      else
        AddMod(2 * p.z, p.y);
        Returned(Ret("[U:1:" + FormatUint(Add64(Double64(p.z), p.y)) + "]", None))
  }

  /**
    `ConvertToSteam3` accepts, rejects and panics on exactly the inputs
    `ConvertTo64` does, with the same error; on success its `W` is the Steam64
    number minus the base (mod 2^64).
   */
  lemma {:induction false} Steam3MatchesSteam64(s: Steam, text: string)
    ensures ConvertToSteam3(s, text).Panicked? <==> ConvertTo64(s, text).Panicked?
    ensures ConvertToSteam3(s, text).Returned? ==>
      var r3, r64 := ConvertToSteam3(s, text).result, ConvertTo64(s, text).result;
      && r3.err == r64.err
      && (r64.err == None ==>
            r3.value == "[U:1:" + FormatUint(Sub64(r64.value, s.identifier)) + "]")
  {
    var p := ParseLegacyText(text);
    if p.Returned? && p.result.err == None {
      ModAddShift(2 * p.result.value.z + p.result.value.y, s.identifier);
      assert 2 * p.result.value.z + s.identifier + p.result.value.y
          == (2 * p.result.value.z + p.result.value.y) + s.identifier;
    }
  }

  /** Adding `v` inside the reduction and subtracting it after cancels out. */
  lemma ModAddShift(t: nat, v: uint64)
    ensures Sub64((t + v) % Modulus, v) == t % Modulus
  {
    var q := t / Modulus;
    var u := t % Modulus;
    assert t == q * Modulus + u;
    assert (t + v) % Modulus == (u + v) % Modulus by {
      assert t + v == q * Modulus + (u + v);
    }
  }

  /** The Steam3 text of legacy text produced by `ConvertToText` carries `w - base`. */
  lemma Steam3OfText(s: Steam, w: uint64)
    requires s.identifier % 2 == 0
    ensures ConvertToSteam3(s, ConvertToText(s, w))
         == Returned(Ret("[U:1:" + FormatUint(Sub64(w, s.identifier)) + "]", None))
  {
    TextRoundTrip(s, w);
    Steam3MatchesSteam64(s, ConvertToText(s, w));
  }

  // ---------------------------------------------------------------------------
  // Vanity URL resolution, without the network round trip

  /**
    `resolveVUrlHelper`: the second-to-last `/`-separated segment of the URL is
    the vanity name, put with the key into the request URL. Indexing panics when
    the URL has no `/`.
   */
  function ResolveVUrlHelper(s: Steam, url: string): (r: Call<string>)
    ensures r.Panicked? <==> '/' !in url
    ensures r.Returned? ==>
      exists user :: '/' !in user && r.result == VanityEndpoint + s.apikey + "&vanityurl=" + user
  {
    SplitJoin(url, '/');
    CountZero(url, '/');
    var urlsplit := Split(url, '/');
    if |urlsplit| < 2 then
      Panicked
    else
      var user := urlsplit[|urlsplit| - 2];
      Returned(VanityEndpoint + s.apikey + "&vanityurl=" + user)
  }

  /**
    The vanity name is the text between the last two slashes; for a profile URL
    ending in `/` (`last` empty) that is the final path component, and without
    the trailing slash it is the component before it.
   */
  lemma {:induction false} VanityNameBetweenSlashes(s: Steam, prefix: string, name: string, last: string)
    requires '/' !in name && '/' !in last
    ensures ResolveVUrlHelper(s, prefix + "/" + name + "/" + last)
         == Returned(VanityEndpoint + s.apikey + "&vanityurl=" + name)
  {
    var url := prefix + "/" + name + "/" + last;
    assert url == prefix + ['/'] + (name + ['/'] + last);
    assert '/' in url by { assert url[|prefix|] == '/'; }
    SplitAppend(prefix, '/', name + ['/'] + last);
    SplitAppend(name, '/', last);
    SplitNoSep(name, '/');
    SplitNoSep(last, '/');
    var parts := Split(url, '/');
    assert parts == Split(prefix, '/') + ([name] + [last]);
  }

  /** With a single slash, the vanity name is everything before it. */
  lemma {:induction false} VanityNameSingleSlash(s: Steam, name: string, last: string)
    requires '/' !in name && '/' !in last
    ensures ResolveVUrlHelper(s, name + "/" + last)
         == Returned(VanityEndpoint + s.apikey + "&vanityurl=" + name)
  {
    var url := name + "/" + last;
    assert url[|name|] == '/';
    SplitAppend(name, '/', last);
    SplitNoSep(name, '/');
    SplitNoSep(last, '/');
  }

  /**
    The tail of `ConvertVanityTo64` once the reply is decoded: a `success` other
    than 1 is an error, otherwise `steamid` is parsed as a uint64; every error
    comes with the value 0.
   */
  function VanityResponseTo64(data: ResponseData): (r: Ret<uint64>)
    ensures r.err == None <==> data.success == 1 && Uint64Text(data.steamid)
    ensures r.err == None ==> r.value == DecValue(data.steamid)
    ensures r.err != None ==> r.value == 0
    ensures data.success != 1 ==> r.err == Some(ErrNotSuccessful)
    ensures data.success == 1 && !Uint64Text(data.steamid) ==>
      r.err == Some(ErrSyntax) || r.err == Some(ErrRange)
  {
    if data.success != 1 then
      Ret(0, Some(ErrNotSuccessful))
    else
      var w := ParseUint(data.steamid);
      if w.err != None then Ret(0, w.err) else Ret(w.value, None)
  }

  /** A successful reply carrying the decimal text of `w` resolves to `w`. */
  lemma VanityResponseRoundTrip(w: uint64)
    ensures VanityResponseTo64(ResponseData(FormatUint(w), 1)) == Ret(w, None)
  {
    ParseFormatUint(w);
  }
}
