# Smart-city emissions Lambda, modelled in Dafny

The system is an AWS Lambda function (`lambda_function.py`) that records one
activity of a city resident. It reads an event (a dict, or a JSON string
that it decodes), takes the user, activity type, city, timestamp, travel mode
and distance with defaults, and estimates the CO2 of a travel activity from a
fixed per-mode factor table. Optionally it overrides the estimate with the
Climatiq estimate API and adds the current temperature from OpenWeather. It
turns the distance, the estimate, the temperature and the numbers in `extra`
into `Decimal`s for DynamoDB (the other fields are copied as they are),
cleans the free-form `extra` dictionary, drops `None` fields, writes the item, and answers 200
with the item converted back to JSON numbers. Any exception gives 500 with
the error text.

The model has six modules:

- `Decimals` (decimals.dfy) holds exact decimal numbers `Dec(digits, scale)` and value equality
  `SameValue`. It also holds round-half-even to a number of places, the canonical "digits a
  float prints" form `FloatForm`, and the decimal text `str()` prints with its parser `Decimal()`.
- `PyValues` (values.dfy) holds the Python values an event can hold (`None`, bool, int, float,
  `Decimal`, str, list, dict). It also holds `str()`, `float()`, `dict.get` and `str.lower()`.
- `Coercion` (coercion.dfy) holds `to_decimal_safe` and `dec_to_native` (the `default=` hook of
  the response serialisation).
- `Emission` (emission.dfy) holds `calc_travel_emission`.
- `Sanitizer` (sanitizer.dfy) holds `sanitize_extra_for_dynamo`, as the imperative loop of the
  source, proved against the map it builds.
- `Handler` (handler.dfy) holds `lambda_handler`. It is an imperative method split into its
  steps: decode, read fields, baseline, Climatiq, OpenWeather, build item, respond. Each step is
  proved equal to a function of its inputs, and the properties of the handler are lemmas about
  those functions.

A Python float is modelled by a decimal of its value. A float read from an event may carry that
value in any scale (`PFloat(Dec(100, 2))` and `PFloat(Dec(10, 1))` both stand for 1.0). Every
float the model computes or prints is in `FloatForm`, the digits `repr` prints (10.0 is
`Dec(100, 1)`, 0.89 is `Dec(89, 2)`). This covers the results of `float()`, the estimate, `str()`
of a float, the Decimal `to_decimal_safe` makes of it, and the float `dec_to_native` returns.
`FloatForm` is proved canonical, so two such floats of the same value are the same model value.
This is what makes `Decimal(str(f))` exact in the model, as the comment on `to_decimal_safe`
intends.

The code has behaviours the model keeps and a lemma states:

- A Climatiq answer of `"co2e": 0` falls through to `co2` (`Handler.ZeroCo2eFallsThrough`).
- When `co2e` and `co2` are both falsy, a falsy `"data"` is itself the answer.
  - `0`, `0.0` or `false` replaces the baseline with 0.0 (`Handler.FalsyDataReplacesEstimate`).
  - `null`, or no `data` at all, keeps the baseline.
  - `""`, `[]` or `{}` records a `climatiq_error`, because `float()` rejects it
    (`Handler.FalsyDataOutcomes`).
- A travel activity always puts `mode` and `distance_km` into `extra` (lines 120-124). The distance
  is never None, so a travel record always has an `extra` field (`Handler.TravelWithoutKeys`).
- A `mode` of None is dropped from `extra` by the sanitiser, and from the record by the None filter
  (`Handler.NoneModeNotStored`).
- `float()` of an int at or beyond 2^1024 - 2^970 raises "int too large to convert to float"
  (`PyValues.IntFloatBoundary`). Such a distance becomes 0.0, and such a Climatiq figure is
  recorded as a `climatiq_error` while the baseline is kept.

External effects are parameters:

- The decoder `json.loads` is a function `loads` that gives `None` when decoding raises.
- The current UTC time is the text `now`.
- The two API keys are `ApiKeys`.
- Every HTTP call is an `HttpOutcome`: the decoded response, or the text of the exception.
- `table.put_item` is a `WriteOutcome`.

## Model

| member | source | states |
|---|---|---|
| Decimals.Round | lambda_function.py:37 | round(x, 4) is the decimal with that many places nearest to x, a tie going to the even last digit |
| Decimals.RoundedHalfEvenUnique | lambda_function.py:37 | the result of rounding half-even is unique, so `Round` is the rounding and not one of several |
| Decimals.FloatForm | lambda_function.py:113 | every number has a float form (one or more places, no trailing zero past the first place) of the same value and the same sign |
| Decimals.FloatFormUnique | lambda_function.py:113 | two float forms of the same value are identical: a float has one printed form |
| Decimals.DecTextRoundTrip | lambda_function.py:48 | Decimal(str(d)) == d for every decimal d: parsing the printed text gives back the same digits and scale |
| PyValues.ToFloat | lambda_function.py:113 | float(v) succeeds exactly for bool, an int of magnitude below 2^1024 - 2^970, float, Decimal and decimal-literal strings. Its result is in float form and has the value of the input. A larger int raises "int too large to convert to float" |
| PyValues.IntFloatBoundary | lambda_function.py:113 | float() rejects an int of magnitude 2^1024 - 2^970, of either sign, and accepts the int just below it |
| PyValues.Str | lambda_function.py:48 | str() of a number begins with a digit or a minus sign, and a string is itself. None and the booleans print as names that no number begins with |
| PyValues.Truthy | lambda_function.py:137 | a value is falsy exactly when it is None, False, a zero int, float or Decimal of any scale, or an empty string, list or dict |
| Decimals.DecText | lambda_function.py:48 | the text of a decimal is not empty, and begins with a minus sign exactly when the number is negative (a digit otherwise) |
| Decimals.ParseDecimal | lambda_function.py:79 | a literal that parses is not empty, its scale is the number of characters after the point, and a negative result comes only from a leading minus sign |
| PyValues.Lower | lambda_function.py:37 | mode.lower() keeps the length and lower-cases each character |
| Coercion.ToDecimalSafe | lambda_function.py:42-50 | None, bool, list and dict give the default. An int gives that integer, a float its printed digits, a Decimal itself. A string gives its parse, or the default when it is not a decimal literal |
| Coercion.StrThenParse | lambda_function.py:47-48 | Decimal(str(v)) of a scalar: a bool fails, an int, a float or a Decimal comes back with its own value |
| Coercion.ToNative | lambda_function.py:181-187 | dec_to_native gives an int exactly when the Decimal is integral, and then the int times 10^scale is the digits. Otherwise it gives a float of the same value, in float form |
| Coercion.TrailingZeroFloat | lambda_function.py:186 | Decimal("12.50") goes to the float 12.5, printed without the trailing zero |
| Coercion.IntegralIffRoundsToItself | lambda_function.py:184 | obj == obj.to_integral() holds exactly when obj has no fractional part |
| Coercion.ToNativeKeepsValue | lambda_function.py:181-186 | the native number keeps the value of the Decimal it came from |
| Coercion.IntRoundTrip | lambda_function.py:42-50 | an int goes to the Decimal of the same integer and back to the same int |
| Coercion.FloatRoundTrip | lambda_function.py:48 | a float goes to the Decimal of its printed digits and back to a native number of the same value |
| Emission.CalcTravelEmission | lambda_function.py:34-39 | a non-string mode or a distance float() rejects gives 0.0. Otherwise the result equals round(factor(mode.lower()) * float(distance), 4), in float form |
| Emission.FactorIgnoresCase | lambda_function.py:35-37 | the lower-cased mode selects the factor: car 0.192, bus 0.089, train 0.041, bike and walk 0, any other mode 0.2. Lower-casing twice changes nothing |
| Emission.LowerIdempotent | lambda_function.py:37 | lower-casing is idempotent |
| Emission.Factor | lambda_function.py:35-37 | every factor is non-negative with at most three places, and a mode outside the table gets 0.2 |
| Emission.EmissionNonNegative | lambda_function.py:34-39 | a distance that is not negative gives an estimate that is not negative |
| Emission.EmissionExactForShortDistances | lambda_function.py:37 | with at most one place in the distance, rounding to 4 places loses nothing: the estimate equals factor times distance |
| Emission.BusTenKilometres | lambda_function.py:34-39 | 10 km by bus (the float 10.0 or the text "10", any case of "bus") is 0.89 |
| Sanitizer.SanitizedValue | lambda_function.py:62-92 | every sanitised value is a Decimal, a string or JSON text |
| Sanitizer.SanitizedExtra | lambda_function.py:58-61 | the cleaned keys are exactly the keys whose value is not None, each with its sanitised value, all storable |
| Sanitizer.SanitizeExtraForDynamo | lambda_function.py:53-93 | the loop builds exactly SanitizedExtra(extra_dict); None and {} give {} |
| Sanitizer.SanitizeExample | lambda_function.py:53-93 | {"a": 1, "b": "hello", "c": "3.5", "d": None} gives a = 1, b = "hello", c = 3.5 and drops d |
| Handler.EventFields | lambda_function.py:99-105 | a dict event is used as is. A string that does not decode gives {}, and one that decodes to a dict gives that dict. Anything else fails at .get with the AttributeError text |
| Handler.ReadActivity | lambda_function.py:105-115 | each of the five fields is the event's value or its default. The distance is float(distance) (default 0), or 0.0 when float() raises |
| Handler.Co2FromResponse | lambda_function.py:137 | the first truthy one of co2e, co2 wins. Otherwise a falsy data is itself the answer, and a truthy data gives its co2e (failing when data is not a dict) |
| Handler.ClimatiqStep | lambda_function.py:136-141 | an exception keeps the baseline and records its text. A None answer keeps the baseline, an answer float() accepts replaces it, and one it rejects keeps it and records the error |
| Handler.TemperatureFromResponse | lambda_function.py:150 | resp.get("main", {}).get("temp"), failing when resp or main is not a dict |
| Handler.WeatherStep | lambda_function.py:144-152 | without a key there is no temperature and no error. An error always comes with no temperature, and otherwise the temperature read from the response is kept |
| Handler.ExtraOf | lambda_function.py:118-152 | extra holds mode and distance_km exactly for travel, and climatiq_error and openweather_error exactly when those steps failed, with their texts |
| Handler.KeyNamesDistinct | lambda_function.py:155-172 | the attribute names user_id, timestamp, activity_type, mode, city, distance, co2_emission, temperature and extra are distinct, so the record's keys stand for them one to one |
| Handler.StoredFloat | lambda_function.py:161-162 | to_decimal_safe of a float with default Decimal("0") is the float's printed digits |
| Handler.FixedFields | lambda_function.py:155-163 | the seven fixed keys: the five copied fields, distance and co2_emission |
| Handler.RawItem | lambda_function.py:155-172 | the item before the None filter: temperature only when its Decimal exists, extra only when extra is not empty and then sanitised |
| Handler.WithoutNone | lambda_function.py:175 | the filter keeps exactly the fields whose value is not None, unchanged |
| Handler.ItemOf | lambda_function.py:154-175 | the stored item holds no None field. A copied field is present exactly when its value is not None. Distance and co2 are Decimals of their float digits. Temperature and extra are present exactly under the source's conditions, with their stated values |
| Handler.EstimateFor | lambda_function.py:117-141 | a non-travel activity gets 0.0 with no error. Travel without a Climatiq key gets the table estimate. A Climatiq error only arises for travel with a key, and then the table estimate is kept |
| Handler.Record | lambda_function.py:117-175 | the record has no None field and always has distance and co2_emission, the latter the estimate. Temperature appears only with a weather key. Extra appears exactly for travel or when a lookup failed |
| Handler.NativeField | lambda_function.py:181-191 | a copied field is unchanged, a number keeps its value through dec_to_native, and extra keeps its keys |
| Handler.NativeItem | lambda_function.py:189-191 | the response item has exactly the stored keys, each field converted |
| Handler.Handle | lambda_function.py:96-197 | the answer is 200 exactly when the event yields fields and the write succeeds, with "Data stored successfully" and the native form of the record. Otherwise it is 500 with the error text of the event or of the write |
| Handler.ReadEvent | lambda_function.py:99-103 | decoding the event step by step gives EventFields |
| Handler.QueryClimatiq | lambda_function.py:126-141 | the imperative Climatiq step computes ClimatiqStep |
| Handler.QueryWeather | lambda_function.py:143-152 | the imperative OpenWeather step computes WeatherStep |
| Handler.Enrich | lambda_function.py:117-152 | the baseline, Climatiq and OpenWeather steps give the estimate, temperature and extra of the record |
| Handler.BuildItem | lambda_function.py:154-175 | building and filtering the item step by step gives ItemOf |
| Handler.LambdaHandler | lambda_function.py:96-197 | an item is written exactly when the event yields fields, and it is the record of those fields. The response is Handle's |
| Handler.RecordOfSteps | lambda_function.py:117-175 | the record built from the outputs of the steps is the record of the activity |
| Handler.HandleOfFields | lambda_function.py:177-192 | once the fields are read, a successful write answers 200 with the record and a failed one 500 with its text |
| Handler.MalformedEventDefaults | lambda_function.py:99-115 | an event string that does not decode becomes an anonymous travel by car in an unknown city at now + "Z", of 0.0 km |
| Handler.EstimateWithoutLookup | lambda_function.py:117-127 | without a Climatiq key, or for a non-travel activity, the stored estimate is the table estimate (travel) or 0.0 |
| Handler.NonTravelRecord | lambda_function.py:117-124 | a non-travel activity stores 0.0 and never gets mode, distance_km or climatiq_error in extra |
| Handler.ClimatiqFailureKeepsBaseline | lambda_function.py:140-141 | when the Climatiq step fails, the table estimate is stored and the error text is in extra, sanitised |
| Handler.ClimatiqOverride | lambda_function.py:137-139 | a non-None answer that float() accepts replaces the estimate, and no climatiq_error is recorded |
| Handler.ZeroCo2eFallsThrough | lambda_function.py:137 | a co2e of 0 is falsy, so a truthy co2 is used instead |
| Handler.NestedCo2e | lambda_function.py:137 | a co2e nested under data is found |
| Handler.FalsyDataReplacesEstimate | lambda_function.py:137-139 | an answer {"data": 0} replaces any baseline with 0.0 and records no error |
| Handler.FalsyDataOutcomes | lambda_function.py:137-141 | with co2e and co2 absent, a data of None keeps the baseline with no error, and an empty string, list or dict records an error |
| Handler.NoneModeNotStored | lambda_function.py:120-124 | a travel activity whose mode is None stores no mode field, and its extra holds distance_km but not mode |
| Handler.WeatherFailure | lambda_function.py:151-152 | a failed weather lookup stores no temperature and records its error text in extra |
| Handler.ResponseMatchesRecord | lambda_function.py:180-191 | the response item has the stored keys. Copied fields are unchanged, and every number keeps its value through dec_to_native, inside extra too |
| Handler.NativeExtraKeepsValues | lambda_function.py:181-191 | dec_to_native applied inside extra keeps every key, text and number value |
| Handler.BusTripActivity | lambda_function.py:105-115 | a travel event by bus with distance "10" reads as mode bus and distance 10.0 |
| Handler.TravelWithoutKeys | lambda_function.py:117-175 | with no API keys a travel record holds its distance, the table estimate, no temperature, and its mode and distance in extra |
| Handler.BusTripRecord | lambda_function.py:117-175 | with no API keys, 10.0 km by bus is stored as distance 10.0, co2 0.89, no temperature and extra {mode: "bus", distance_km: 10.0} |
| Handler.TravelExtraSanitized | lambda_function.py:171-172 | a non-numeric mode stays text and the distance becomes its printed Decimal in the sanitised extra |

## Left out

- The DynamoDB client and table (lambda_function.py:12-14, 178) are not modelled. The write is the `WriteOutcome` parameter, and the model gives the item it would write.
- The HTTP helpers (21-31) are not modelled, nor the Climatiq payload, headers and URL (129-136) or the OpenWeather query and URL encoding (147-148). Each call is an `HttpOutcome` parameter: the decoded answer or the text of the exception it raised.
- The environment variables (13, 17-18) are the `ApiKeys` parameter. Only whether each key is empty matters.
- `datetime.utcnow().isoformat()` (108) is the `now` parameter.
- `json.loads` (101) is the `loads` parameter. The model does not describe the JSON grammar.
- `json.dumps` of the response (191, 197) is not modelled as text: the body is the structure it serialises. `json.dumps` of a list or dict in `extra` (90) is the value `XJson(v)`, which stands for its text.
- The `str(v)` fallback at line 92 cannot be reached for decoded JSON values, so it is not modelled.
- The `print` calls (196) are not modelled.
- `Decimal` values nested inside event values reach `dec_to_native` only as top-level numbers in the model. Events decoded from JSON never hold them.
- PyValues.ToFloat: a float is an exact decimal of its value. Binary precision is not modelled: the inexact sum or product of floats, the inexact float of a large int below the overflow bound, `round()` acting on the binary value, `float()` of a literal or a Decimal with more than 17 significant digits (Python rounds it to the nearest double; the model keeps every digit, so the distance at line 113, the Climatiq figure at line 139 and the float of `dec_to_native` at line 186 keep them, and `Handler.ResponseMatchesRecord` keeps the exact value), overflow of a float literal or Decimal to infinity and the signed zero.
- PyValues.ToFloat: `float()` and `Decimal()` accept only an optional sign, digits and an optional fraction. Exponents, `inf`, `nan`, underscores and surrounding whitespace are not modelled.
- PyValues.Str: `repr` of a float in scientific notation (1e-05, 1e+16) is not modelled. Every float prints as plain digits.
- PyValues.Lower: only ASCII letters are lower-cased. Unicode case mapping is not modelled.
- Emission.CalcTravelEmission: the result is stated equal in value (`SameValue`) to the rounded product, with its canonical float digits. It is not stated as a digit-for-digit expression.
- Emission.EmissionNonNegative: the estimate is not negative only for a distance that is not negative, because `float()` accepts negative distances.
- Exception texts are modelled for the cases the model raises: `.get` on a non-dict, `float()` of an unparsable string, of an unsupported type and of an int too large.
- PyValues.ToFloat: the message for an unparsable string always quotes it between single quotes. Python quotes it with `repr`, which uses double quotes for a text containing `'` and no `"`, and escapes backslashes and non-printable characters.
- PyValues.Str: `str()` of a Decimal whose adjusted exponent is below -6 is scientific notation (`1E-7`); the model prints plain digits. No stored value or response depends on that text.
- A number in a copied field (`user_id`, `timestamp`, `activity_type`, `mode`, `city`, lines 156-160) is stored as it is, not as a Decimal. DynamoDB would refuse a float there. Whether the write succeeds is the `WriteOutcome` input and is not tied to what the item holds.
- A float copied unchanged into the record or the response keeps the digits it was read with, which need not be its float form.
- The order of dictionary iteration is not modelled, and neither is the order of keys in the serialised response: maps are unordered.
- `fetch_city_data.py` is not part of this model.
