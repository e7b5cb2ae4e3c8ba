/**
  Concrete cases of the converter: the conversion tables of the repository's
  test file, the vanity-resolution example, and inputs that show which checks
  the conversions leave out. Each lemma states one fact, so that no proof has
  to evaluate more than one literal text at a time.
 */
module SteamIdVectors {
  import opened GoStd
  import opened SteamIdConverter

  // ---------------------------------------------------------------------------
  // Decimal renderings of the numbers in the tables, one digit at a time

  lemma FormatStep(n: nat, prefix: string, c: char)
    requires n >= 10 && FormatUint(n / 10) == prefix && c == DigitChar(n % 10)
    ensures FormatUint(n) == prefix + [c]
  {
  }

  lemma Format82174()
    ensures FormatUint(82174) == "82174"
  {
    assert FormatUint(8) == "8";
    FormatStep(82, "8", '2');
    FormatStep(821, "82", '1');
    FormatStep(8217, "821", '7');
    FormatStep(82174, "8217", '4');
  }

  lemma Format26448851()
    ensures FormatUint(26448851) == "26448851"
  {
    assert FormatUint(2) == "2";
    FormatStep(26, "2", '6');
    FormatStep(264, "26", '4');
    FormatStep(2644, "264", '4');
    FormatStep(26448, "2644", '8');
    FormatStep(264488, "26448", '8');
    FormatStep(2644885, "264488", '5');
    FormatStep(26448851, "2644885", '1');
  }

  lemma Format2912()
    ensures FormatUint(2912) == "2912"
  {
    assert FormatUint(2) == "2";
    FormatStep(29, "2", '9');
    FormatStep(291, "29", '1');
    FormatStep(2912, "291", '2');
  }

  lemma Format2273581()
    ensures FormatUint(2273581) == "2273581"
  {
    assert FormatUint(2) == "2";
    FormatStep(22, "2", '2');
    FormatStep(227, "22", '7');
    FormatStep(2273, "227", '3');
    FormatStep(22735, "2273", '5');
    FormatStep(227358, "22735", '8');
    FormatStep(2273581, "227358", '1');
  }

  lemma Format164349()
    ensures FormatUint(164349) == "164349"
  {
    assert FormatUint(1) == "1";
    FormatStep(16, "1", '6');
    FormatStep(164, "16", '4');
    FormatStep(1643, "164", '3');
    FormatStep(16434, "1643", '4');
    FormatStep(164349, "16434", '9');
  }

  lemma Format52897702()
    ensures FormatUint(52897702) == "52897702"
  {
    assert FormatUint(5) == "5";
    FormatStep(52, "5", '2');
    FormatStep(528, "52", '8');
    FormatStep(5289, "528", '9');
    FormatStep(52897, "5289", '7');
    FormatStep(528977, "52897", '7');
    FormatStep(5289770, "528977", '0');
    FormatStep(52897702, "5289770", '2');
  }

  lemma Format5825()
    ensures FormatUint(5825) == "5825"
  {
    assert FormatUint(5) == "5";
    FormatStep(58, "5", '8');
    FormatStep(582, "58", '2');
    FormatStep(5825, "582", '5');
  }

  lemma Format4547163()
    ensures FormatUint(4547163) == "4547163"
  {
    assert FormatUint(4) == "4";
    FormatStep(45, "4", '5');
    FormatStep(454, "45", '4');
    FormatStep(4547, "454", '7');
    FormatStep(45471, "4547", '1');
    FormatStep(454716, "45471", '6');
    FormatStep(4547163, "454716", '3');
  }

  // ---------------------------------------------------------------------------
  // ConvertToText table (steamidconverter_test.go, textTests)

  /** Above the base no wrap-around happens: `Z` is exactly `(w - Y - base) / 2`. */
  lemma TextAboveBase(s: Steam, w: uint64)
    requires s.identifier % 2 == 0 && s.identifier <= w
    ensures ConvertToText(s, w)
         == "STEAM_0:" + FormatUint(w % 2) + ":" + FormatUint((w - w % 2 - s.identifier) / 2)
  {
  }

  /** The table's texts, seen as the pieces `ConvertToText` concatenates. */
  lemma TextLiterals()
    ensures "STEAM_0:" + "1" + ":" + "82174" == "STEAM_0:1:82174"
    ensures "STEAM_0:" + "0" + ":" + "26448851" == "STEAM_0:0:26448851"
    ensures "STEAM_0:" + "1" + ":" + "2912" == "STEAM_0:1:2912"
    ensures "STEAM_0:" + "1" + ":" + "2273581" == "STEAM_0:1:2273581"
    ensures FormatUint(0) == "0" && FormatUint(1) == "1"
  {
  }

  lemma TextVector1(apikey: string)
    ensures ConvertToText(New(apikey), 76561197960430077) == "STEAM_0:1:82174"
  {
    TextAboveBase(New(apikey), 76561197960430077);
    assert 76561197960430077 % 2 == 1;
    assert (76561197960430077 - 1 - AccountBase) / 2 == 82174;
    Format82174();
    TextLiterals();
  }

  lemma TextVector2(apikey: string)
    ensures ConvertToText(New(apikey), 76561198013163430) == "STEAM_0:0:26448851"
  {
    TextAboveBase(New(apikey), 76561198013163430);
    assert 76561198013163430 % 2 == 0;
    assert (76561198013163430 - 0 - AccountBase) / 2 == 26448851;
    Format26448851();
    TextLiterals();
  }

  lemma TextVector3(apikey: string)
    ensures ConvertToText(New(apikey), 76561197960271553) == "STEAM_0:1:2912"
  {
    TextAboveBase(New(apikey), 76561197960271553);
    assert 76561197960271553 % 2 == 1;
    assert (76561197960271553 - 1 - AccountBase) / 2 == 2912;
    Format2912();
    TextLiterals();
  }

  lemma TextVector4(apikey: string)
    ensures ConvertToText(New(apikey), 76561197964812891) == "STEAM_0:1:2273581"
  {
    TextAboveBase(New(apikey), 76561197964812891);
    assert 76561197964812891 % 2 == 1;
    assert (76561197964812891 - 1 - AccountBase) / 2 == 2273581;
    Format2273581();
    TextLiterals();
  }

  // ---------------------------------------------------------------------------
  // ConvertTo64 table (sixtyFourTests): the text table read backwards

  lemma SixtyFourVectors(apikey: string)
    ensures ConvertTo64(New(apikey), "STEAM_0:1:82174") == Returned(Ret(76561197960430077, None))
    ensures ConvertTo64(New(apikey), "STEAM_0:0:26448851") == Returned(Ret(76561198013163430, None))
    ensures ConvertTo64(New(apikey), "STEAM_0:1:2912") == Returned(Ret(76561197960271553, None))
    ensures ConvertTo64(New(apikey), "STEAM_0:1:2273581") == Returned(Ret(76561197964812891, None))
  {
    TextVector1(apikey);
    NewTextRoundTrip(apikey, 76561197960430077);
    TextVector2(apikey);
    NewTextRoundTrip(apikey, 76561198013163430);
    TextVector3(apikey);
    NewTextRoundTrip(apikey, 76561197960271553);
    TextVector4(apikey);
    NewTextRoundTrip(apikey, 76561197964812891);
  }

  // ---------------------------------------------------------------------------
  // ConvertToSteam3 table (steam3Tests)

  /** The table's Steam3 texts, seen as the pieces `ConvertToSteam3` concatenates. */
  lemma Steam3Literals()
    ensures "[U:1:" + "164349" + "]" == "[U:1:164349]"
    ensures "[U:1:" + "52897702" + "]" == "[U:1:52897702]"
    ensures "[U:1:" + "5825" + "]" == "[U:1:5825]"
    ensures "[U:1:" + "4547163" + "]" == "[U:1:4547163]"
  {
  }

  lemma Steam3Vector1(apikey: string)
    ensures ConvertToSteam3(New(apikey), "STEAM_0:1:82174") == Returned(Ret("[U:1:164349]", None))
  {
    var s := New(apikey);
    calc {
      ConvertToSteam3(s, "STEAM_0:1:82174");
      { TextVector1(apikey); }
      ConvertToSteam3(s, ConvertToText(s, 76561197960430077));
      { Steam3OfText(s, 76561197960430077); }
      Returned(Ret("[U:1:" + FormatUint(Sub64(76561197960430077, s.identifier)) + "]", None));
      { assert Sub64(76561197960430077, s.identifier) == 164349; }
      Returned(Ret("[U:1:" + FormatUint(164349) + "]", None));
      { Format164349(); }
      Returned(Ret("[U:1:" + "164349" + "]", None));
      { Steam3Literals(); }
      Returned(Ret("[U:1:164349]", None));
    }
  }

  lemma Steam3Vector2(apikey: string)
    ensures ConvertToSteam3(New(apikey), "STEAM_0:0:26448851") == Returned(Ret("[U:1:52897702]", None))
  {
    var s := New(apikey);
    calc {
      ConvertToSteam3(s, "STEAM_0:0:26448851");
      { TextVector2(apikey); }
      ConvertToSteam3(s, ConvertToText(s, 76561198013163430));
      { Steam3OfText(s, 76561198013163430); }
      Returned(Ret("[U:1:" + FormatUint(Sub64(76561198013163430, s.identifier)) + "]", None));
      { assert Sub64(76561198013163430, s.identifier) == 52897702; }
      Returned(Ret("[U:1:" + FormatUint(52897702) + "]", None));
      { Format52897702(); }
      Returned(Ret("[U:1:" + "52897702" + "]", None));
      { Steam3Literals(); }
      Returned(Ret("[U:1:52897702]", None));
    }
  }

  lemma Steam3Vector3(apikey: string)
    ensures ConvertToSteam3(New(apikey), "STEAM_0:1:2912") == Returned(Ret("[U:1:5825]", None))
  {
    var s := New(apikey);
    calc {
      ConvertToSteam3(s, "STEAM_0:1:2912");
      { TextVector3(apikey); }
      ConvertToSteam3(s, ConvertToText(s, 76561197960271553));
      { Steam3OfText(s, 76561197960271553); }
      Returned(Ret("[U:1:" + FormatUint(Sub64(76561197960271553, s.identifier)) + "]", None));
      { assert Sub64(76561197960271553, s.identifier) == 5825; }
      Returned(Ret("[U:1:" + FormatUint(5825) + "]", None));
      { Format5825(); }
      Returned(Ret("[U:1:" + "5825" + "]", None));
      { Steam3Literals(); }
      Returned(Ret("[U:1:5825]", None));
    }
  }

  lemma Steam3Vector4(apikey: string)
    ensures ConvertToSteam3(New(apikey), "STEAM_0:1:2273581") == Returned(Ret("[U:1:4547163]", None))
  {
    var s := New(apikey);
    calc {
      ConvertToSteam3(s, "STEAM_0:1:2273581");
      { TextVector4(apikey); }
      ConvertToSteam3(s, ConvertToText(s, 76561197964812891));
      { Steam3OfText(s, 76561197964812891); }
      Returned(Ret("[U:1:" + FormatUint(Sub64(76561197964812891, s.identifier)) + "]", None));
      { assert Sub64(76561197964812891, s.identifier) == 4547163; }
      Returned(Ret("[U:1:" + FormatUint(4547163) + "]", None));
      { Format4547163(); }
      Returned(Ret("[U:1:" + "4547163" + "]", None));
      { Steam3Literals(); }
      Returned(Ret("[U:1:4547163]", None));
    }
  }

  // ---------------------------------------------------------------------------
  // Vanity resolution (vanityTests), without the stubbed server

  lemma VanityUrlVector(apikey: string)
    ensures ResolveVUrlHelper(New(apikey), "http://steamcommunity.com/id/panvertigo/")
         == Returned(VanityEndpoint + apikey + "&vanityurl=" + "panvertigo")
  {
    assert "http://steamcommunity.com/id/panvertigo/"
        == "http://steamcommunity.com/id" + "/" + "panvertigo" + "/" + "";
    assert '/' !in "panvertigo";
    VanityNameBetweenSlashes(New(apikey), "http://steamcommunity.com/id", "panvertigo", "");
  }

  /** Without the trailing slash the extracted name is `id`, not the vanity name. */
  lemma VanityUrlNoTrailingSlash(apikey: string)
    ensures ResolveVUrlHelper(New(apikey), "http://steamcommunity.com/id/panvertigo")
         == Returned(VanityEndpoint + apikey + "&vanityurl=" + "id")
  {
    assert "http://steamcommunity.com/id/panvertigo"
        == "http://steamcommunity.com" + "/" + "id" + "/" + "panvertigo";
    assert '/' !in "id" && '/' !in "panvertigo";
    VanityNameBetweenSlashes(New(apikey), "http://steamcommunity.com", "id", "panvertigo");
  }

  /** The stub replies carry `FormatUint` of the expected numbers with success 1. */
  lemma VanityResponseVectors()
    ensures VanityResponseTo64(ResponseData(FormatUint(76561198000670105), 1)) == Ret(76561198000670105, None)
    ensures VanityResponseTo64(ResponseData(FormatUint(76561197972495328), 1)) == Ret(76561197972495328, None)
    ensures VanityResponseTo64(ResponseData(FormatUint(76561198000670105), 0)) == Ret(0, Some(ErrNotSuccessful))
  {
    VanityResponseRoundTrip(76561198000670105);
    VanityResponseRoundTrip(76561197972495328);
  }
}
