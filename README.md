# Waste mapping and base64 image payloads (Dafny model)

This project models two self-contained parts of the `ai_service` of the
ecovision waste classifier:

- **The waste mapper** (`ai_service/inference/mapper.py`). It maps a detector
  label such as `"Water_Bottle"` to one of eight waste classes and attaches
  that class's disposal instruction, reuse ideas and bin colour. The label is
  lower-cased. An exact key of the label table wins. Otherwise the first key,
  in declaration order, that is a substring of the label (or has the label as
  a substring) wins. Otherwise the class is `plastic_bottle`.
- **Image payload handling** (`ai_service/utils/image_io.py`).
  `decode_image` takes either plain base64 or a data URL. If there is a comma,
  it keeps the text between the first and second comma. It then strips white
  space and base64-decodes. `encode_image_to_base64` builds
  `data:image/<format in lower case>;base64,<payload>`. Base64 is modelled on
  its own, after section 4 of RFC 4648.

Modules:

- `Wrappers` (wrappers.dfy): `Option` and `Result`.
- `Strings` (strings.dfy): the Python `str` operations the core uses:
  `lower()`, the substring test `a in b`, `split(",")` and `strip()`.
- `Base64` (base64.dfy): the encoder and a strict decoder, with proofs that
  each undoes the other.
- `ImageIO` (image_io.dfy): `DecodeImage`,
  `EncodeImageToBase64` and the round trip.
- `WasteMapper` (mapper.dfy): the four tables, dictionary lookup, the
  partial-match search, `MapDetection` and the three getters.

`WasteMapper` only fills its four dictionaries in `__init__` and never
changes them, so the model keeps them as module constants. A Python
dictionary keeps insertion order, and both the partial-match loop and
`get_all_classes` depend on that order. Each dictionary is therefore an
ordered list of `(key, value)` entries. `dict.get` becomes `Lookup`, which
returns the value of the first entry with the key. The partial-match `for`
loop with `break` is the method `SearchPartial`. It is proved equal to the
recursive specification `FirstPartial`, and `MapDetection` calls it the way
`map_detection` runs its loop. A detection dictionary whose keys may be
missing becomes a `Detection` record of `Option` fields. `.get(key, default)`
becomes `GetOr(default)`.

## Model

| member | source | states |
|---|---|---|
| `Strings.Lower` | ai_service/inference/mapper.py:141 | `lower()` keeps the length, leaves no ASCII capital, turns each capital into its small letter and keeps every other character |
| `Strings.LowerKeepsNonLetter` | ai_service/utils/image_io.py:55 | lower-casing neither adds nor removes a non-letter such as a comma, so a comma-free format stays comma-free |
| `Strings.IsInfixIffOccurs` | ai_service/inference/mapper.py:149 | the substring test `needle in hay` holds exactly when some slice of `hay` equals `needle` |
| `Strings.EmptyIsInfix` | ai_service/inference/mapper.py:149 | `""` is a substring of every string |
| `Strings.Split` | ai_service/utils/image_io.py:31 | `split(sep)` yields at least one piece, at least two exactly when `sep` occurs, and no piece contains `sep` |
| `Strings.JoinSplit` | ai_service/utils/image_io.py:31 | joining the pieces with the separator gives back the input |
| `Strings.SplitSecondPiece` | ai_service/utils/image_io.py:30-31 | piece 1 of `p,q...` is `q`, the text between the first and the second comma; whatever follows the second comma is not in it |
| `Strings.Strip` | ai_service/utils/image_io.py:34 | `strip()` leaves no white space at either end of its result |
| `Strings.StripCutsOnlySpace` | ai_service/utils/image_io.py:34 | the input of `strip()` is its result with white space before and after it, so nothing but white space is cut away |
| `Strings.StripIgnoresSurroundingSpace` | ai_service/utils/image_io.py:34 | white space added around a string does not change its `strip()` |
| `Strings.StripTrimmed` | ai_service/utils/image_io.py:34 | a string with no white space at its ends is its own `strip()` |
| `Base64.SextetChar` | ai_service/utils/image_io.py:54 | each 6-bit value has an alphabet character whose value is that 6-bit value (the alphabet table of RFC 4648 section 4) |
| `Base64.SextetCharOfCharSextet` | ai_service/utils/image_io.py:37 | each alphabet character is the character of its own value, so the alphabet mapping is a bijection |
| `Base64.Encode` | ai_service/utils/image_io.py:54 | `b64encode` output has length `4 * ceil(n / 3)` (a multiple of 4) and holds only alphabet characters and `=` |
| `Base64.DecodeEncode` | ai_service/utils/image_io.py:37 | decoding the encoding of any bytes gives back those bytes |
| `Base64.EncodeDecode` | ai_service/utils/image_io.py:37 | whatever decodes successfully is the encoding of the decoded bytes |
| `Base64.DecodeIffEncode` | ai_service/utils/image_io.py:37 | `s` decodes to `b` exactly when `s` is the encoding of `b` |
| `Base64.EncodeHasNoSeparator` | ai_service/utils/image_io.py:54-56 | a base64 payload holds no comma, so it cannot split a data URL |
| `ImageIO.Payload` | ai_service/utils/image_io.py:29-31 | the text `decode_image` goes on to strip and decode holds no comma |
| `ImageIO.EncodeImageToBase64` | ai_service/utils/image_io.py:43-56 | for a comma-free format the data URL splits at its one comma into exactly `data:image/<lower(format)>;base64` and the base64 encoding of the bytes |
| `ImageIO.HeaderHasNoComma` | ai_service/utils/image_io.py:55-56 | the data-URL header built from a comma-free format has no comma |
| `ImageIO.StripEncoding` | ai_service/utils/image_io.py:34 | `strip()` leaves a base64 encoding unchanged |
| `ImageIO.DecodeImageSpec` | ai_service/utils/image_io.py:15-40 | `decode_image(s)` returns `b` exactly when the stripped payload of `s` is the encoding of `b`, and raises `ValueError`, with no bytes, exactly when it is the encoding of nothing |
| `ImageIO.DecodePlain` | ai_service/utils/image_io.py:29-37 | input without a comma decodes to `b` exactly when, stripped, it is the encoding of `b` |
| `ImageIO.DecodeSecondField` | ai_service/utils/image_io.py:30-31 | with a comma, only the text between the first and the second comma is decoded; header and anything after a second comma are ignored |
| `ImageIO.DecodeIgnoresSurroundingSpace` | ai_service/utils/image_io.py:33-34 | white space around a plain payload does not change what is decoded |
| `ImageIO.RoundTrip` | ai_service/utils/image_io.py:15-56 | `decode_image(encode_image_to_base64(b, fmt)) == b` for all bytes `b` and every comma-free `fmt` |
| `ImageIO.DefaultFormatIsPng` | ai_service/utils/image_io.py:43-56 | with the default format `"PNG"` the result is `data:image/png;base64,` followed by the encoding |
| `WasteMapper.Lookup` | ai_service/inference/mapper.py:144 | `dict.get` misses exactly when no entry has the key, and otherwise returns the value of the first entry with that key |
| `WasteMapper.FirstPartial` | ai_service/inference/mapper.py:147-151 | the partial search finds nothing exactly when no key is a substring of the label or has it as a substring, and otherwise returns the value of the first such key |
| `WasteMapper.SearchPartial` | ai_service/inference/mapper.py:147-151 | the `for` loop with `break` returns exactly what `FirstPartial` specifies |
| `WasteMapper.MapDetection` | ai_service/inference/mapper.py:131-169 | the class is that of the lower-cased label (or of `""` when absent) and is one of the eight classes; confidence, bbox and class id are copied or default to `0.0`, `[0,0,0,0]` and `0`; disposal, ideas and bin are the guidance for the class |
| `WasteMapper.GetAllClasses` | ai_service/inference/mapper.py:171-173 | the eight classes, in declaration order |
| `WasteMapper.GetDisposal` | ai_service/inference/mapper.py:175-177 | the instruction stored for the class, or `"Check local guidelines."` for a class that is not one of the eight |
| `WasteMapper.GetReuseIdeas` | ai_service/inference/mapper.py:179-181 | the ideas stored for the class, or `[]` for a class that is not one of the eight |
| `WasteMapper.GetDustbin` | ai_service/inference/mapper.py:166 | the bin stored for the class, or `"Blue Bin"` for a class that is not one of the eight |
| `WasteMapper.MappingValuesAreClasses` | ai_service/inference/mapper.py:19-73 | every value of the label table is a key of the disposal table |
| `WasteMapper.ResolvedClassIsKnown` | ai_service/inference/mapper.py:141-156 | every label resolves to one of the eight classes |
| `WasteMapper.ExactMatchWins` | ai_service/inference/mapper.py:144-147 | a label that is a key gets that key's class; partial matching does not take part |
| `WasteMapper.FirstPartialMatchWins` | ai_service/inference/mapper.py:147-151 | without an exact key, the first partially matching key in declaration order decides and later ones are ignored |
| `WasteMapper.NoMatchGivesDefault` | ai_service/inference/mapper.py:153-156 | when no key matches exactly or partially, the class is `plastic_bottle` |
| `WasteMapper.EmptyLabel` | ai_service/inference/mapper.py:141-156 | `""` is not a key but is a substring of the first key `"bottle"`, so a missing or empty label resolves through partial matching to `plastic_bottle` |
| `WasteMapper.BottleGlassIsKey` | ai_service/inference/mapper.py:21-48 | `"bottle_glass"` is the 22nd key of the label table and no earlier key equals it |
| `WasteMapper.ExactKeyBeatsEarlierPartialKey` | ai_service/inference/mapper.py:144-151 | `"Bottle_Glass"` resolves to `glass_bottle` although the earlier key `"bottle"` is a substring of it |
| `WasteMapper.CaseInsensitive` | ai_service/inference/mapper.py:141 | labels that agree once lower-cased get the same class |
| `WasteMapper.ClassesHaveGuidance` | ai_service/inference/mapper.py:164-166 | every one of the eight classes has a disposal text, three reuse ideas and a bin, so `map_detection` never falls back to a default |

## Left out

- `Base64.Decode`: stricter than Python's non-validating `base64.b64decode`, which discards characters outside the alphabet and ignores non-zero bits in the last character before the padding. The model accepts exactly the canonical padded encodings and treats every other string as an error.
- `ImageIO.DecodeImage`: inherits that strictness, so it rejects some strings Python would decode leniently. It models the error as `ValueError` without the exception's message text.
- `Strings.Lower`: maps only the ASCII capitals `A`-`Z`. Python's `str.lower()` also lower-cases non-ASCII letters, and a few of them become two characters. Detector labels and image format names are ASCII.
- `WasteMapper.Lookup`: returns the value of the first entry with the key. A Python dictionary has only one entry per key. That the 30 label keys are all distinct is not proved.
- `WasteMapper.MapDetection`: the detection's fields are typed. A `class_name` that is present but is not a string, which makes Python's `.lower()` raise, is not modelled. The confidence is a `real` that is copied unchanged, not a floating-point number.
- The warning that `map_detection` logs before it defaults to `plastic_bottle` is not modelled. Neither is other logging.
- `encode_mask_to_base64`, `image_bytes_to_array` and `array_to_image_bytes` (ai_service/utils/image_io.py:59-129) are not part of this model. They depend on PIL and numpy for PNG encoding, decoding and array conversion.
- `ai_service/inference/detector.py` is not part of this model. Box decoding, confidence and IoU thresholding and non-maximum suppression happen inside the ultralytics call at lines 146-152, so none of that code is available to model.
- `ai_service/inference/segmenter.py`, `ai_service/main.py` (HTTP routing and model handles), `ai_service/setup_models.py` (file checks and downloads) and the HTTP clients in `ai_service/tests/test_detection.py` and `ai_service/example_request.py` are not part of this model. They are I/O and glue around the two modelled parts.
