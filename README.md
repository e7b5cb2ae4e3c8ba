# steamidconverter in Dafny

A model of the Go package `steamidconverter`, which converts between three
ways of naming a Steam account, plus the local steps of resolving a vanity
profile URL:

- a Steam64 number (`uint64`), e.g. `76561197960430077`;
- legacy text `STEAM_0:Y:Z`, with `Y` the low bit and `Z` the account index;
- Steam3 text `[U:1:W]`, with `W = Z*2 + Y`.

The account-universe base `76561197960265728` is the value that `New`
installs. The conversions are `Steam64 = Z*2 + base + Y` and, back the other
way, `Y = w % 2` and `Z = (w - Y - base) / 2`. All of this arithmetic is Go
`uint64` arithmetic, so the model reduces every result modulo 2^64.

The model has three modules:

- `GoStd` (`go_std.dfy`) holds the Go library behaviour the package relies on:
  - `uint64` addition, subtraction and doubling with wrap-around;
  - `strconv.ParseUint(s, 10, 0)` as Go's digit loop, with its cutoff test, its early `ErrRange` (value `MaxUint64`) and its `ErrSyntax` (value 0);
  - `%d` formatting (`FormatUint`);
  - `strings.Split` with a one-character separator.

  The `(value, error)` pair that Go functions return is `Ret`. An
  index-out-of-range panic is the `Panicked` case of `Call`.
- `SteamIdConverter` (`steamid_converter.dfy`) holds the converter. `Steam` is
  a value holding the API key and the base. Every method of the package is a
  function of that value and its arguments, because none of them changes the
  struct.
- `SteamIdVectors` (`steamid_vectors.dfy`) states the repository's test tables
  as lemmas about the model.

What the proofs establish:

- **Round trip from a number.** With an even base, converting any uint64 `w`
  to legacy text and back gives `w` with no error. This holds for every
  `w`, including those below the base: there the subtraction wraps, and the
  later addition wraps back.
- **Round trip from text.** Canonical legacy text converts to a number whose
  legacy text is the original text, as long as nothing overflows.
- **Error paths:**
  - Both text conversions panic exactly when the text has fewer than two colons.
  - They report `Z`'s parse error before `Y`'s.
  - They return 0 or `""` alongside any error.
- **What parsing does not check.** These are described below; none of them is
  treated as a defect, because nothing in the package promises otherwise.
  - The first segment, and anything after the third segment, are never read.
  - `Y` is not limited to 0 or 1.
  - `Z*2` can wrap around.
- **Steam3 agrees with Steam64.** `ConvertToSteam3` fails exactly where
  `ConvertTo64` does, with the same error. On success its `W` is the Steam64
  number minus the base.
- **Vanity resolution.** The vanity name is the segment between the last two
  slashes. A decoded reply resolves to its `steamid` only when `success` is 1.

Text with too few colon-separated segments is not reported as a parse error.
The code indexes `sidSlice[2]` without checking the length, which panics, and
the model follows the code: such input gives `Panicked`.

## Model

| member | source | states |
|---|---|---|
| GoStd.Add64 | steamidconverter.go:48 | uint64 addition is the exact sum, less 2^64 when the sum does not fit |
| GoStd.Sub64 | steamidconverter.go:32 | uint64 subtraction is the exact difference, plus 2^64 when it would be negative |
| GoStd.Double64 | steamidconverter.go:48 | `z*2` on uint64 is `2z`, less 2^64 when it does not fit |
| GoStd.FormatUint | steamidconverter.go:33 | `%d` of a number is canonical decimal text (digits, no leading zero) whose value is the number |
| GoStd.FormatDecValue | steamidconverter.go:33 | every canonical decimal text is the `%d` rendering of its value, so `%d` hits exactly the canonical texts |
| GoStd.ScanDigits | steamidconverter.go:39 | the digit loop ends in success, `(0, ErrSyntax)` or `(MaxUint64, ErrRange)` and nothing else |
| GoStd.ScanDigitsCorrect | steamidconverter.go:39 | on all-digit input the loop succeeds iff the decimal value fits in 64 bits, yields that value, and otherwise stops with `(MaxUint64, ErrRange)` |
| GoStd.ScanDigitsSyntax | steamidconverter.go:39 | input containing a non-digit never parses |
| GoStd.ParseUint | steamidconverter.go:39 | `ParseUint(s,10,0)` succeeds iff `s` is non-empty, all decimal digits and below 2^64, and then yields its value; empty input and input starting with a non-digit are `(0, ErrSyntax)` and too-large input is `(MaxUint64, ErrRange)` |
| GoStd.ScanDigitsSyntaxAfter | steamidconverter.go:39 | a non-digit after a digit prefix that fits in 64 bits ends the loop with `(0, ErrSyntax)`, whatever follows |
| GoStd.SyntaxAfterPrefix | steamidconverter.go:39 | `ParseUint` of digits that fit in 64 bits, then a non-digit, then anything, is `(0, ErrSyntax)` |
| GoStd.ParseFormatUint | steamidconverter.go:33-39 | parsing the `%d` text of any uint64 gives it back with no error |
| GoStd.FormatParseUint | steamidconverter.go:33-39 | printing a parsed value reproduces the text iff the text was canonical (leading zeros are lost) |
| GoStd.Split | steamidconverter.go:38 | `strings.Split` always returns at least one piece (`[""]` for empty text) |
| GoStd.CountZero | steamidconverter.go:105-106 | a string has no separator iff its separator count is zero |
| GoStd.SplitJoin | steamidconverter.go:38 | there is one more piece than separators, no piece contains the separator, and joining the pieces restores the text |
| GoStd.SplitAppend | steamidconverter.go:38 | splitting `a + sep + b` is splitting `a` followed by splitting `b` |
| GoStd.JoinSplit | steamidconverter.go:38 | splitting the join of separator-free pieces gives the pieces back |
| SteamIdConverter.New | steamidconverter.go:21-26 | the converter keeps the key and installs the base 76561197960265728, which is even |
| SteamIdConverter.ConvertToText | steamidconverter.go:29-34 | the text starts with `STEAM_0:`, its ninth character is the low bit of `w`, and a colon follows it |
| SteamIdConverter.LowBitIndexArithmetic | steamidconverter.go:30-32 | with an even base, `Z*2 + base + Y` equals `w` modulo 2^64, and exactly when `w` is at least the base |
| SteamIdConverter.LegacyTextParts | steamidconverter.go:29-34 | the legacy text has exactly three segments: `STEAM_0`, the low bit as one digit, and a canonical `Z` below 2^63 that recovers `w` as above (the only such index, so the text is determined for every `w`) |
| SteamIdConverter.ParseLegacyText | steamidconverter.go:38-46 | it panics iff the text has fewer than two colons (fewer than three segments); otherwise it succeeds iff segments 2 and 1 are both uint64 text; segment 2's error is reported first; it yields their values, or zeros with an error |
| SteamIdConverter.OnlyMiddleSegmentsRead | steamidconverter.go:38-46 | two texts that agree on segments 1 and 2 parse alike |
| SteamIdConverter.ParseThreeSegments | steamidconverter.go:38-46 | `head:Y:Z` parses to the values of `Y` and `Z`, or fails with their errors in that order |
| SteamIdConverter.ExtraSegmentsIgnored | steamidconverter.go:38-46 | a different first segment and anything after a third colon do not change the result |
| SteamIdConverter.ConvertTo64 | steamidconverter.go:37-50 | it panics iff there are fewer than two colons; it returns the parse error with value 0; on success it returns `(Z*2 + base + Y) mod 2^64` |
| SteamIdConverter.ConvertTo64Segments | steamidconverter.go:37-50 | on `head:Y:Z` with valid numbers it returns `(2Z + base + Y) mod 2^64` with no error |
| SteamIdConverter.TextRoundTrip | steamidconverter.go:29-50 | with an even base, `ConvertTo64(ConvertToText(w))` is `w` with no error, for every uint64 `w` |
| SteamIdConverter.NewTextRoundTrip | steamidconverter.go:21-50 | the round trip holds for every converter that `New` returns |
| SteamIdConverter.NumberRoundTrip | steamidconverter.go:29-50 | canonical `STEAM_0:Y:Z` without overflow converts to `2Z + base + Y`, whose legacy text is the original text |
| SteamIdConverter.IndexWrapsAround | steamidconverter.go:48 | an index `Z` of 2^63 or more gives the same Steam64 number as `Z - 2^63`, so two different texts collide |
| SteamIdConverter.LowBitNotChecked | steamidconverter.go:43-48 | `Y` is not limited to 0 or 1: `STEAM_0:Y:Z` and `STEAM_0:Y-2:Z+1` are different texts that give the same number |
| SteamIdConverter.ConvertToSteam3 | steamidconverter.go:53-65 | it panics iff there are fewer than two colons; it returns the parse error with `""`; on success it returns `[U:1:W]` with `W = (Z*2 + Y) mod 2^64` |
| SteamIdConverter.Steam3MatchesSteam64 | steamidconverter.go:37-64 | `ConvertToSteam3` panics and fails exactly where `ConvertTo64` does, with the same error; on success `W` is the Steam64 number minus the base |
| SteamIdConverter.Steam3OfText | steamidconverter.go:29-64 | the Steam3 text of `ConvertToText(w)` is `[U:1:w - base]` |
| SteamIdConverter.ResolveVUrlHelper | steamidconverter.go:104-108 | it panics iff the URL has no `/`; otherwise it returns the request URL with the key and a slash-free vanity name |
| SteamIdConverter.VanityNameBetweenSlashes | steamidconverter.go:104-108 | the vanity name is the text between the last two slashes |
| SteamIdConverter.VanityNameSingleSlash | steamidconverter.go:104-108 | with a single slash, the vanity name is everything before it |
| SteamIdConverter.VanityResponseTo64 | steamidconverter.go:92-101 | a decoded reply resolves iff `success` is 1 and `steamid` is uint64 text, and then gives its value; otherwise it gives 0 with "not successful" or a parse error |
| SteamIdConverter.VanityResponseRoundTrip | steamidconverter.go:92-101 | a successful reply carrying `%d` of `w` resolves to `w` |
| SteamIdVectors.TextAboveBase | steamidconverter.go:29-34 | for `w` at least an even base, `Z` is exactly `(w - Y - base)/2` |
| SteamIdVectors.TextVector1 | steamidconverter_test.go:16 | `76561197960430077` gives `STEAM_0:1:82174` |
| SteamIdVectors.TextVector2 | steamidconverter_test.go:17 | `76561198013163430` gives `STEAM_0:0:26448851` |
| SteamIdVectors.TextVector3 | steamidconverter_test.go:18 | `76561197960271553` gives `STEAM_0:1:2912` |
| SteamIdVectors.TextVector4 | steamidconverter_test.go:19 | `76561197964812891` gives `STEAM_0:1:2273581` |
| SteamIdVectors.SixtyFourVectors | steamidconverter_test.go:22-30 | the four legacy texts of the table convert to their Steam64 numbers with no error |
| SteamIdVectors.Steam3Vector1 | steamidconverter_test.go:36 | `STEAM_0:1:82174` gives `[U:1:164349]` |
| SteamIdVectors.Steam3Vector2 | steamidconverter_test.go:37 | `STEAM_0:0:26448851` gives `[U:1:52897702]` |
| SteamIdVectors.Steam3Vector3 | steamidconverter_test.go:38 | `STEAM_0:1:2912` gives `[U:1:5825]` |
| SteamIdVectors.Steam3Vector4 | steamidconverter_test.go:39 | `STEAM_0:1:2273581` gives `[U:1:4547163]` |
| SteamIdVectors.VanityUrlVector | steamidconverter_test.go:46 | `http://steamcommunity.com/id/panvertigo/` asks for the vanity name `panvertigo` |
| SteamIdVectors.VanityUrlNoTrailingSlash | steamidconverter.go:104-108 | without the trailing slash, the name asked for is `id` |
| SteamIdVectors.VanityResponseVectors | steamidconverter_test.go:46-48 | the stub replies (success 1, `%d` of the expected number) resolve to 76561198000670105 and 76561197972495328; a reply with success 0 is "not successful" |

## Left out

- The HTTP request, reading the body, JSON decoding and closing the body (`steamidconverter.go:70-90`) are I/O. The model starts from the decoded `response` object (`ResponseData`), so transport and decoding errors are not represented.
- The `*http.Client` that `New` creates is left out of `Steam`, because it only serves that I/O.
- Error values are kinds (`ErrSyntax`, `ErrRange`, `ErrNotSuccessful`). Go's error texts and the fields of `*strconv.NumError` are not modelled.
- `ParseUint`'s bit size 0 is taken as 64, the width of `uint` on 64-bit platforms. 32-bit platforms are not modelled.
- Strings are sequences of characters, whereas Go splits and parses bytes. The two agree for the ASCII separators and digits involved, but multi-byte text is not modelled byte for byte.
- `%v` of the key and the vanity name in the request URL is plain concatenation, because both are strings.
- The test server and HTTP transport in `steamidconverter_test.go` are not modelled. The second vanity URL in the table (`FireSlash`) has the same shape as the first and is covered by `VanityNameBetweenSlashes`.
