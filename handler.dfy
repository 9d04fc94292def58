/** lambda_handler: reads one activity event, estimates its emission, lets
    the two optional lookups (a carbon-estimation service and a weather
    service) improve or annotate the record, stores the record and answers
    with an HTTP-style response. The lookups, the table write, the JSON
    decoder and the clock are inputs. */
module Handler {
  import opened Decimals
  import opened PyValues
  import opened Coercion
  import opened Emission
  import opened Sanitizer

  /** What one HTTP call gave: the decoded JSON body, or the text of the
      exception it raised (a timeout, an error status, a body that is not
      JSON). */
  datatype HttpOutcome = Responded(body: PyValue) | Raised(message: string)

  /** What the table write did. */
  datatype WriteOutcome = Written | WriteRaised(message: string)

  /** The two optional API keys; an empty key switches its lookup off. */
  datatype ApiKeys = ApiKeys(climatiqKey: string, openweatherKey: string)

  /** The attributes a stored record can have. */
  datatype Key = UserId | Timestamp | ActivityType | Mode | City | Distance | Co2Emission | Temperature | Extra

  /** The attribute's name in the table and in the response. */
  function KeyName(k: Key): string
  {
    match k
    case UserId => "user_id"
    case Timestamp => "timestamp"
    case ActivityType => "activity_type"
    case Mode => "mode"
    case City => "city"
    case Distance => "distance"
    case Co2Emission => "co2_emission"
    case Temperature => "temperature"
    case Extra => "extra"
  }

  /** Distinct attributes have distinct names, so a record keyed by `Key`
      is the same as one keyed by the attribute names. */
  lemma KeyNamesDistinct(j: Key, k: Key)
    requires KeyName(j) == KeyName(k)
    ensures j == k
  {
    assert KeyName(j)[0] == KeyName(k)[0];
    if KeyName(j)[0] == 'c' {
      assert KeyName(j)[1] == KeyName(k)[1];
    }
    if KeyName(j)[0] == 't' {
      assert KeyName(j)[1] == KeyName(k)[1];
    }
  }

  /** A value of the stored record: a field copied from the event, a number
      (a Decimal in the table, a native number in the response), or the
      sanitised `extra` map. */
  datatype Field<+N> = Copied(v: PyValue) | Number(n: N) | ExtraMap(m: map<string, ExtraValue<N>>)

  type Item = map<Key, Field<Dec>>

  /** The JSON body of the response. */
  datatype Body = Stored(message: string, item: map<Key, Field<Native>>) | Failed(error: string)

  datatype Response = Response(statusCode: int, body: Body)

  // ---------------------------------------------------------------------
  // Reading the event
  // ---------------------------------------------------------------------

  /** The dictionary the handler reads its fields from. A string event is
      decoded with `loads` first, and a string that does not decode counts as
      {}; whatever is then not a dictionary makes the first event.get raise. */
  function EventFields(event: PyValue, loads: string -> Option<PyValue>): (r: Result<map<string, PyValue>>)
    ensures event.PDict? ==> r == Ok(event.entries)
    ensures event.PStr? && loads(event.s).None? ==> r == Ok(map[])
    ensures event.PStr? && loads(event.s).Some? ==>
              if loads(event.s).value.PDict? then r == Ok(loads(event.s).value.entries)
              else r == Err(NoGetError(loads(event.s).value))
    ensures !event.PStr? && !event.PDict? ==> r == Err(NoGetError(event))
  {
    var decoded :=
      if !event.PStr? then event
      else match loads(event.s)
        case Some(v) => v
        case None => PDict(map[]);
    if decoded.PDict? then Ok(decoded.entries) else Err(NoGetError(decoded))
  }

  /** The event's fields after their defaults, and the distance as a float. */
  datatype Activity = Activity(
    userId: PyValue, activityType: PyValue, city: PyValue,
    timestamp: PyValue, mode: PyValue, distance: Dec)

  /** `v` is the event's value under `key`, or `default` when it has none. */
  predicate ReadOrDefault(fields: map<string, PyValue>, key: string, default: PyValue, v: PyValue)
  {
    (key in fields ==> v == fields[key]) && (key !in fields ==> v == default)
  }

  /** The fields with their defaults; `now` is the isoformat text of the
      current UTC time. A distance float() rejects becomes 0.0. */
  function ReadActivity(fields: map<string, PyValue>, now: string): (a: Activity)
    ensures ReadOrDefault(fields, "user_id", PStr("anonymous"), a.userId)
    ensures ReadOrDefault(fields, "activity_type", PStr("travel"), a.activityType)
    ensures ReadOrDefault(fields, "city", PStr("Unknown"), a.city)
    ensures ReadOrDefault(fields, "timestamp", PStr(now + "Z"), a.timestamp)
    ensures ReadOrDefault(fields, "mode", PStr("car"), a.mode)
    ensures IsFloatForm(a.distance)
    ensures var raw := Get(fields, "distance", PInt(0));
            (ToFloat(raw).Ok? ==> a.distance == ToFloat(raw).value)
            && (ToFloat(raw).Err? ==> a.distance == ZeroFloat)
  {
    var distance :=
      match ToFloat(Get(fields, "distance", PInt(0)))
      case Ok(d) => d
      case Err(_) => ZeroFloat;
    Activity(
      Get(fields, "user_id", PStr("anonymous")),
      Get(fields, "activity_type", PStr("travel")),
      Get(fields, "city", PStr("Unknown")),
      Get(fields, "timestamp", PStr(now + "Z")),
      Get(fields, "mode", PStr("car")),
      distance)
  }

  /** activity_type == "travel": only the string "travel" compares equal. */
  predicate IsTravel(a: Activity)
  {
    a.activityType == PStr("travel")
  }

  // ---------------------------------------------------------------------
  // The carbon-estimation lookup
  // ---------------------------------------------------------------------

  /** Python's `x or y`. */
  function Or(x: PyValue, y: PyValue): PyValue
  {
    if Truthy(x) then x else y
  }

  /** The carbon figure of a Climatiq answer, read in three shapes (a
      top-level co2e, a top-level co2, a co2e nested in data): the first whose
      value is truthy wins, a falsy value falls through to the next one, and
      a falsy `data` (when co2e and co2 are falsy too) is itself the answer. A response or a truthy `data` that
      is not a dictionary raises. */
  function Co2FromResponse(resp: PyValue): (r: Result<PyValue>)
    ensures !resp.PDict? ==> r == Err(NoGetError(resp))
    ensures resp.PDict? ==>
              var co2e := Get(resp.entries, "co2e", PNone);
              var co2 := Get(resp.entries, "co2", PNone);
              var data := Get(resp.entries, "data", PNone);
              && (Truthy(co2e) ==> r == Ok(co2e))
              && (!Truthy(co2e) && Truthy(co2) ==> r == Ok(co2))
              && (!Truthy(co2e) && !Truthy(co2) && !Truthy(data) ==> r == Ok(data))
              && (!Truthy(co2e) && !Truthy(co2) && Truthy(data) ==>
                    r == if data.PDict? then Ok(Get(data.entries, "co2e", PNone)) else Err(NoGetError(data)))
  {
    if !resp.PDict? then Err(NoGetError(resp))
    else
      var first := Or(Get(resp.entries, "co2e", PNone), Get(resp.entries, "co2", PNone));
      if Truthy(first) then Ok(first)
      else
        var data := Get(resp.entries, "data", PNone);
        if !Truthy(data) then Ok(data)
        else if data.PDict? then Ok(Get(data.entries, "co2e", PNone))
        else Err(NoGetError(data))
  }

  /** The estimate after a lookup, and the text of the exception it raised. */
  datatype Estimate = Estimate(co2: Dec, error: Option<string>)

  /** The carbon-estimation step: a value found in the response replaces the
      baseline as float(value); no value leaves it; any exception (the call,
      a .get on a non-dictionary, float() of the value) leaves the baseline
      and is recorded. */
  function ClimatiqStep(baseline: Dec, outcome: HttpOutcome): (e: Estimate)
    ensures e.error.Some? ==> e.co2 == baseline
    ensures outcome.Raised? ==> e == Estimate(baseline, Some(outcome.message))
    ensures outcome.Responded? ==>
              match Co2FromResponse(outcome.body)
              case Err(msg) => e == Estimate(baseline, Some(msg))
              case Ok(v) =>
                if v.PNone? then e == Estimate(baseline, None)
                else if ToFloat(v).Ok? then e == Estimate(ToFloat(v).value, None)
                else e == Estimate(baseline, Some(ToFloat(v).message))
  {
    match outcome
    case Raised(msg) => Estimate(baseline, Some(msg))
    case Responded(resp) =>
      match Co2FromResponse(resp)
      case Err(msg) => Estimate(baseline, Some(msg))
      case Ok(v) =>
        if v.PNone? then Estimate(baseline, None)
        else match ToFloat(v)
          case Ok(f) => Estimate(f, None)
          case Err(msg) => Estimate(baseline, Some(msg))
  }

  // ---------------------------------------------------------------------
  // The weather lookup
  // ---------------------------------------------------------------------

  /** The temperature held under "temp" inside "main": a missing "main" gives None, and a
      response or a "main" that is not a dictionary raises. */
  function TemperatureFromResponse(resp: PyValue): (r: Result<PyValue>)
    ensures !resp.PDict? ==> r == Err(NoGetError(resp))
    ensures resp.PDict? && "main" !in resp.entries ==> r == Ok(PNone)
    ensures resp.PDict? && "main" in resp.entries ==>
              var main := resp.entries["main"];
              r == if main.PDict? then Ok(Get(main.entries, "temp", PNone)) else Err(NoGetError(main))
  {
    if !resp.PDict? then Err(NoGetError(resp))
    else
      var main := Get(resp.entries, "main", PDict(map[]));
      if main.PDict? then Ok(Get(main.entries, "temp", PNone)) else Err(NoGetError(main))
  }

  /** The temperature read, and the text of the exception the lookup raised. */
  datatype Reading = Reading(temperature: PyValue, error: Option<string>)

  /** The weather step: without a key nothing is read; a failure leaves the
      temperature None and is recorded. */
  function WeatherStep(configured: bool, outcome: HttpOutcome): (w: Reading)
    ensures !configured ==> w == Reading(PNone, None)
    ensures w.error.Some? ==> w.temperature.PNone?
    ensures configured && outcome.Raised? ==> w == Reading(PNone, Some(outcome.message))
    ensures configured && outcome.Responded? ==>
              match TemperatureFromResponse(outcome.body)
              case Ok(t) => w == Reading(t, None)
              case Err(msg) => w == Reading(PNone, Some(msg))
  {
    if !configured then Reading(PNone, None)
    else match outcome
      case Raised(msg) => Reading(PNone, Some(msg))
      case Responded(resp) =>
        match TemperatureFromResponse(resp)
        case Ok(t) => Reading(t, None)
        case Err(msg) => Reading(PNone, Some(msg))
  }

  // ---------------------------------------------------------------------
  // Assembling the record
  // ---------------------------------------------------------------------

  /** The `extra` dictionary before sanitising: the mode and the distance of
      a travel activity, and the text of each lookup's exception. */
  function ExtraOf(a: Activity, climatiqError: Option<string>, weatherError: Option<string>): (m: map<string, PyValue>)
    ensures m.Keys <= {"mode", "distance_km", "climatiq_error", "openweather_error"}
    ensures ("mode" in m <==> IsTravel(a)) && ("distance_km" in m <==> IsTravel(a))
    ensures IsTravel(a) ==> m["mode"] == a.mode && m["distance_km"] == PFloat(a.distance)
    ensures "climatiq_error" in m <==> climatiqError.Some?
    ensures climatiqError.Some? ==> m["climatiq_error"] == PStr(climatiqError.value)
    ensures "openweather_error" in m <==> weatherError.Some?
    ensures weatherError.Some? ==> m["openweather_error"] == PStr(weatherError.value)
  {
    var travel: map<string, PyValue> :=
      if IsTravel(a) then map["mode" := a.mode, "distance_km" := PFloat(a.distance)] else map[];
    var withClimatiq :=
      if climatiqError.Some? then travel["climatiq_error" := PStr(climatiqError.value)] else travel;
    if weatherError.Some? then withClimatiq["openweather_error" := PStr(weatherError.value)] else withClimatiq
  }

  /** The five fields copied from the event into the record. */
  predicate IsCopied(k: Key)
  {
    k.UserId? || k.Timestamp? || k.ActivityType? || k.Mode? || k.City?
  }

  /** The event field stored under a copied key. */
  function CopiedField(a: Activity, k: Key): PyValue
  {
    match k
    case UserId => a.userId
    case Timestamp => a.timestamp
    case ActivityType => a.activityType
    case Mode => a.mode
    case _ => a.city
  }

  /** The temperature to store: only a value that is not None and that
      to_decimal_safe converts. */
  function StoredTemperature(temperature: PyValue): Option<Dec>
  {
    if temperature.PNone? then None else ToDecimalSafe(temperature, None)
  }

  /** to_decimal_safe of a float x with the default zero: the Decimal of the
      digits it prints, so the default is never taken. */
  function StoredFloat(x: Dec): (r: Dec)
    ensures ToDecimalSafe(PFloat(x), Some(Dec(0, 0))) == Some(r)
    ensures r == FloatForm(x)
  {
    ToDecimalSafe(PFloat(x), Some(Dec(0, 0))).value
  }

  /** The seven fields every record starts with, given the two Decimals. */
  function FixedFields(a: Activity, distance: Dec, co2: Dec): (m: Item)
    ensures forall k :: k in m <==> IsCopied(k) || k == Distance || k == Co2Emission
    ensures forall k :: IsCopied(k) ==> m[k] == Copied(CopiedField(a, k))
    ensures m[Distance] == Number(distance) && m[Co2Emission] == Number(co2)
  {
    map[
      UserId := Copied(a.userId),
      Timestamp := Copied(a.timestamp),
      ActivityType := Copied(a.activityType),
      Mode := Copied(a.mode),
      City := Copied(a.city),
      Distance := Number(distance),
      Co2Emission := Number(co2)]
  }

  /** The record before None-valued fields are removed: the seven fixed
      fields, then the temperature and `extra` when they are stored. */
  function RawItem(a: Activity, distance: Dec, co2: Dec, temperature: Option<Dec>, extra: map<string, PyValue>): (raw: Item)
    ensures forall k :: IsCopied(k) ==> k in raw && raw[k] == Copied(CopiedField(a, k))
    ensures Distance in raw && raw[Distance] == Number(distance)
    ensures Co2Emission in raw && raw[Co2Emission] == Number(co2)
    ensures Temperature in raw <==> temperature.Some?
    ensures Temperature in raw ==> raw[Temperature] == Number(temperature.value)
    ensures Extra in raw <==> extra != map[]
    ensures Extra in raw ==> raw[Extra] == ExtraMap(SanitizedExtra(Some(extra)))
  {
    var fixed := FixedFields(a, distance, co2);
    var withTemperature := if temperature.Some? then fixed[Temperature := Number(temperature.value)] else fixed;
    if extra != map[] then withTemperature[Extra := ExtraMap(SanitizedExtra(Some(extra)))] else withTemperature
  }

  /** The record without its fields whose value is None. */
  function WithoutNone(raw: Item): (item: Item)
    ensures forall k :: k in item <==> k in raw && raw[k] != Copied(PNone)
    ensures forall k :: k in item ==> item[k] == raw[k]
  {
    map k | k in raw && raw[k] != Copied(PNone) :: raw[k]
  }

  /** The stored record: every copied field that is not None, the distance
      and the estimate as Decimals, the temperature only when there is one
      that converts, and the sanitised `extra` only when it is not empty. */
  function ItemOf(a: Activity, co2: Dec, temperature: PyValue, extra: map<string, PyValue>): (item: Item)
    ensures forall k :: k in item ==> item[k] != Copied(PNone)
    ensures forall k :: IsCopied(k) ==>
              (k in item <==> !CopiedField(a, k).PNone?) && (k in item ==> item[k] == Copied(CopiedField(a, k)))
    ensures Distance in item && item[Distance] == Number(FloatForm(a.distance))
    ensures Co2Emission in item && item[Co2Emission] == Number(FloatForm(co2))
    ensures Temperature in item <==> !temperature.PNone? && ToDecimalSafe(temperature, None).Some?
    ensures Temperature in item ==> item[Temperature] == Number(ToDecimalSafe(temperature, None).value)
    ensures Extra in item <==> extra != map[]
    ensures Extra in item ==> item[Extra] == ExtraMap(SanitizedExtra(Some(extra)))
  {
    WithoutNone(RawItem(a, StoredFloat(a.distance), StoredFloat(co2), StoredTemperature(temperature), extra))
  }

  /** The estimate of an activity: the baseline of a travel activity (0.0
      otherwise), improved by the carbon-estimation lookup when its key is
      set and the activity is travel. */
  function EstimateFor(a: Activity, keys: ApiKeys, climatiq: HttpOutcome): (e: Estimate)
    ensures !IsTravel(a) ==> e == Estimate(ZeroFloat, None)
    ensures IsTravel(a) && keys.climatiqKey == "" ==> e == Estimate(CalcTravelEmission(PFloat(a.distance), a.mode), None)
    ensures e.error.Some? ==>
              IsTravel(a) && keys.climatiqKey != "" && e.co2 == CalcTravelEmission(PFloat(a.distance), a.mode)
  {
    var baseline := if IsTravel(a) then CalcTravelEmission(PFloat(a.distance), a.mode) else ZeroFloat;
    if keys.climatiqKey != "" && IsTravel(a) then ClimatiqStep(baseline, climatiq)
    else Estimate(baseline, None)
  }

  /** The record for one activity: the estimate, the weather step's
      temperature, and the lookups' failures in `extra`. */
  function Record(a: Activity, keys: ApiKeys, climatiq: HttpOutcome, weather: HttpOutcome): (item: Item)
    ensures forall k :: k in item ==> item[k] != Copied(PNone)
    ensures Distance in item && Co2Emission in item
    ensures item[Co2Emission] == Number(FloatForm(EstimateFor(a, keys, climatiq).co2))
    ensures Temperature in item ==> keys.openweatherKey != ""
    ensures Extra in item <==>
              IsTravel(a) || EstimateFor(a, keys, climatiq).error.Some?
              || WeatherStep(keys.openweatherKey != "", weather).error.Some?
  {
    var estimate := EstimateFor(a, keys, climatiq);
    var reading := WeatherStep(keys.openweatherKey != "", weather);
    ItemOf(a, estimate.co2, reading.temperature, ExtraOf(a, estimate.error, reading.error))
  }

  // ---------------------------------------------------------------------
  // The response
  // ---------------------------------------------------------------------

  /** One field as the response serialises it: every Decimal, also inside
      `extra`, goes through dec_to_native and becomes an int or a float of
      the same value. */
  function NativeField(f: Field<Dec>): (r: Field<Native>)
    ensures f.Copied? ==> r == Copied(f.v)
    ensures f.Number? ==> r.Number? && SameValue(NativeValue(r.n), f.n)
    ensures f.ExtraMap? ==> r.ExtraMap? && r.m.Keys == f.m.Keys
  {
    match f
    case Copied(v) => Copied(v)
    case Number(d) => Number(ToNative(d))
    case ExtraMap(m) =>
      ExtraMap(map k | k in m :: match m[k] case XNumber(d) => XNumber(ToNative(d)) case XText(s) => XText(s) case XJson(v) => XJson(v))
  }

  /** The response item: the stored keys, each field converted. */
  function NativeItem(item: Item): (r: map<Key, Field<Native>>)
    ensures r.Keys == item.Keys
    ensures forall k :: k in r ==> r[k] == NativeField(item[k])
  {
    map k | k in item :: NativeField(item[k])
  }

  const SuccessMessage := "Data stored successfully"

  /** The whole invocation: 200 with the stored record when the event is a
      dictionary and the write succeeds, 500 with the exception's text when
      either raises. */
  function Handle(event: PyValue, loads: string -> Option<PyValue>, now: string, keys: ApiKeys,
                  climatiq: HttpOutcome, weather: HttpOutcome, write: WriteOutcome): (r: Response)
    ensures r.statusCode == 200 <==> EventFields(event, loads).Ok? && write.Written?
    ensures r.statusCode != 200 ==> r.statusCode == 500 && r.body.Failed?
    ensures EventFields(event, loads).Err? ==> r.body == Failed(EventFields(event, loads).message)
    ensures EventFields(event, loads).Ok? && write.WriteRaised? ==> r.body == Failed(write.message)
    ensures r.statusCode == 200 ==>
              r.body == Stored(SuccessMessage, NativeItem(Record(ReadActivity(EventFields(event, loads).value, now), keys, climatiq, weather)))
  {
    match EventFields(event, loads)
    case Err(msg) => Response(500, Failed(msg))
    case Ok(fields) =>
      var item := Record(ReadActivity(fields, now), keys, climatiq, weather);
      match write
      case WriteRaised(msg) => Response(500, Failed(msg))
      case Written => Response(200, Stored(SuccessMessage, NativeItem(item)))
  }

  /** The try block around the carbon-estimation call: co2_kg is replaced
      by float() of the value found, and the first exception stops the block
      and is returned. */
  method QueryClimatiq(baseline: Dec, outcome: HttpOutcome) returns (co2Kg: Dec, failure: Option<string>)
    ensures Estimate(co2Kg, failure) == ClimatiqStep(baseline, outcome)
  {
    co2Kg, failure := baseline, None;
    var co2FromApi := PNone;
    match outcome
    case Raised(msg) => failure := Some(msg);
    case Responded(resp) =>
      if !resp.PDict? {
        failure := Some(NoGetError(resp));
      } else {
        co2FromApi := Or(Get(resp.entries, "co2e", PNone), Get(resp.entries, "co2", PNone));
        if !Truthy(co2FromApi) {
          var data := Get(resp.entries, "data", PNone);
          if !Truthy(data) {
            co2FromApi := data;
          } else if data.PDict? {
            co2FromApi := Get(data.entries, "co2e", PNone);
          } else {
            failure := Some(NoGetError(data));
          }
        }
      }
    if failure.None? && !co2FromApi.PNone? {
      match ToFloat(co2FromApi)
      case Ok(f) => co2Kg := f;
      case Err(msg) => failure := Some(msg);
    }
  }

  /** The try block around the weather call: the temperature is assigned
      only once the whole lookup has succeeded. */
  method QueryWeather(outcome: HttpOutcome) returns (temperatureVal: PyValue, failure: Option<string>)
    ensures Reading(temperatureVal, failure) == WeatherStep(true, outcome)
  {
    temperatureVal, failure := PNone, None;
    match outcome
    case Raised(msg) => failure := Some(msg);
    case Responded(resp) =>
      match TemperatureFromResponse(resp)
      case Ok(t) => temperatureVal := t;
      case Err(msg) => failure := Some(msg);
  }

  /** The record: the seven fixed fields, the temperature if it converts,
      the sanitised `extra` if there is any, then None values removed. */
  method BuildItem(a: Activity, co2Kg: Dec, temperatureVal: PyValue, extra: map<string, PyValue>)
    returns (cleaned: Item)
    ensures cleaned == ItemOf(a, co2Kg, temperatureVal, extra)
  {
    var item := FixedFields(a, StoredFloat(a.distance), StoredFloat(co2Kg));
    ghost var fixed := item;
    ghost var temperature := StoredTemperature(temperatureVal);
    if !temperatureVal.PNone? {
      var decTemp := ToDecimalSafe(temperatureVal, None);
      if decTemp.Some? {
        item := item[Temperature := Number(decTemp.value)];
      }
    }
    ghost var withTemperature := item;
    assert withTemperature == if temperature.Some? then fixed[Temperature := Number(temperature.value)] else fixed;
    if extra != map[] {
      var sanitized := SanitizeExtraForDynamo(Some(extra));
      item := item[Extra := ExtraMap(sanitized)];
    }
    assert item == if extra != map[] then withTemperature[Extra := ExtraMap(SanitizedExtra(Some(extra)))] else withTemperature;
    assert item == RawItem(a, StoredFloat(a.distance), StoredFloat(co2Kg), temperature, extra);
    cleaned := WithoutNone(item);
    ItemOfFiltersRawItem(a, co2Kg, temperatureVal, extra);
  }

  lemma ItemOfFiltersRawItem(a: Activity, co2: Dec, temperature: PyValue, extra: map<string, PyValue>)
    ensures ItemOf(a, co2, temperature, extra)
            == WithoutNone(RawItem(a, StoredFloat(a.distance), StoredFloat(co2), StoredTemperature(temperature), extra))
  {
  }

  /** The middle of lambda_handler: the baseline, then the two lookups in
      turn, each updating the estimate or the temperature and adding its
      failure to `extra`. */
  method Enrich(a: Activity, keys: ApiKeys, climatiq: HttpOutcome, weather: HttpOutcome)
    returns (co2Kg: Dec, temperatureVal: PyValue, extra: map<string, PyValue>)
    ensures co2Kg == EstimateFor(a, keys, climatiq).co2
    ensures temperatureVal == WeatherStep(keys.openweatherKey != "", weather).temperature
    ensures extra == ExtraOf(a, EstimateFor(a, keys, climatiq).error, WeatherStep(keys.openweatherKey != "", weather).error)
  {
    co2Kg := ZeroFloat;
    extra := map[];
    if a.activityType == PStr("travel") {
      co2Kg := CalcTravelEmission(PFloat(a.distance), a.mode);
      extra := extra["mode" := a.mode];
      extra := extra["distance_km" := PFloat(a.distance)];
    }
    ghost var baseline := co2Kg;
    ghost var travelExtra := extra;
    assert travelExtra == if IsTravel(a) then map["mode" := a.mode, "distance_km" := PFloat(a.distance)] else map[];

    var climatiqError: Option<string> := None;
    if keys.climatiqKey != "" && a.activityType == PStr("travel") {
      co2Kg, climatiqError := QueryClimatiq(co2Kg, climatiq);
      if climatiqError.Some? {
        extra := extra["climatiq_error" := PStr(climatiqError.value)];
      }
    }
    assert Estimate(co2Kg, climatiqError) == EstimateFor(a, keys, climatiq);
    ghost var climatiqExtra := extra;
    assert climatiqExtra == if climatiqError.Some? then travelExtra["climatiq_error" := PStr(climatiqError.value)] else travelExtra;

    temperatureVal := PNone;
    var weatherError: Option<string> := None;
    if keys.openweatherKey != "" {
      temperatureVal, weatherError := QueryWeather(weather);
      if weatherError.Some? {
        extra := extra["openweather_error" := PStr(weatherError.value)];
      }
    }
    assert Reading(temperatureVal, weatherError) == WeatherStep(keys.openweatherKey != "", weather);
    assert extra == if weatherError.Some? then climatiqExtra["openweather_error" := PStr(weatherError.value)] else climatiqExtra;
  }

  /** The start of lambda_handler: a string event is replaced by its
      decoding, or by {} when it does not decode; the first event.get raises
      on anything that is not a dictionary. */
  method ReadEvent(event: PyValue, loads: string -> Option<PyValue>) returns (fields: Result<map<string, PyValue>>)
    ensures fields == EventFields(event, loads)
  {
    var ev := event;
    if ev.PStr? {
      match loads(ev.s)
      case Some(v) => ev := v;
      case None => ev := PDict(map[]);
    }
    if !ev.PDict? {
      return Err(NoGetError(ev));
    }
    return Ok(ev.entries);
  }

  /** lambda_handler(event, context): decode and read the event, enrich,
      build the record, write it and answer. Returns the response and the
      record handed to the table write, if the handler got that far. */
  method LambdaHandler(event: PyValue, loads: string -> Option<PyValue>, now: string, keys: ApiKeys,
                       climatiq: HttpOutcome, weather: HttpOutcome, write: WriteOutcome)
    returns (response: Response, written: Option<Item>)
    ensures written.Some? <==> EventFields(event, loads).Ok?
    ensures written.Some? ==> written.value == Record(ReadActivity(EventFields(event, loads).value, now), keys, climatiq, weather)
    ensures response == Handle(event, loads, now, keys, climatiq, weather, write)
  {
    var fields := ReadEvent(event, loads);
    if fields.Err? {
      return Response(500, Failed(fields.message)), None;
    }
    var a := ReadActivity(fields.value, now);
    var co2Kg, temperatureVal, extra := Enrich(a, keys, climatiq, weather);
    var cleaned := BuildItem(a, co2Kg, temperatureVal, extra);
    RecordOfSteps(a, keys, climatiq, weather, co2Kg, temperatureVal, extra);
    written := Some(cleaned);
    HandleOfFields(event, loads, now, keys, climatiq, weather, write, fields.value);
    match write
    case WriteRaised(msg) => response := Response(500, Failed(msg));
    case Written => response := Response(200, Stored(SuccessMessage, NativeItem(cleaned)));
  }

  lemma RecordOfSteps(a: Activity, keys: ApiKeys, climatiq: HttpOutcome, weather: HttpOutcome,
                      co2Kg: Dec, temperatureVal: PyValue, extra: map<string, PyValue>)
    requires co2Kg == EstimateFor(a, keys, climatiq).co2
    requires temperatureVal == WeatherStep(keys.openweatherKey != "", weather).temperature
    requires extra == ExtraOf(a, EstimateFor(a, keys, climatiq).error, WeatherStep(keys.openweatherKey != "", weather).error)
    ensures Record(a, keys, climatiq, weather) == ItemOf(a, co2Kg, temperatureVal, extra)
  {
  }

  lemma HandleOfFields(event: PyValue, loads: string -> Option<PyValue>, now: string, keys: ApiKeys,
                       climatiq: HttpOutcome, weather: HttpOutcome, write: WriteOutcome, fields: map<string, PyValue>)
    requires EventFields(event, loads) == Ok(fields)
    ensures Handle(event, loads, now, keys, climatiq, weather, write) ==
              if write.Written? then Response(200, Stored(SuccessMessage, NativeItem(Record(ReadActivity(fields, now), keys, climatiq, weather))))
              else Response(500, Failed(write.message))
  {
  }

  // ---------------------------------------------------------------------
  // Properties of the assembled record
  // ---------------------------------------------------------------------

  /** A string event that does not decode is read as {}: every field takes
      its default and the distance is 0.0. */
  lemma MalformedEventDefaults(event: PyValue, loads: string -> Option<PyValue>, now: string)
    requires event.PStr? && loads(event.s).None?
    ensures EventFields(event, loads) == Ok(map[])
    ensures ReadActivity(map[], now) ==
              Activity(PStr("anonymous"), PStr("travel"), PStr("Unknown"), PStr(now + "Z"), PStr("car"), ZeroFloat)
  {
    assert ToFloat(PInt(0)) == Ok(ZeroFloat);
  }

  /** Without the carbon-estimation lookup (no key, or not travel) the
      stored estimate is the baseline: the factor estimate of a travel
      activity and 0.0 for any other. */
  lemma EstimateWithoutLookup(a: Activity, keys: ApiKeys, climatiq: HttpOutcome, weather: HttpOutcome)
    requires keys.climatiqKey == "" || !IsTravel(a)
    ensures var item := Record(a, keys, climatiq, weather);
            item[Co2Emission] == Number(if IsTravel(a) then CalcTravelEmission(PFloat(a.distance), a.mode) else ZeroFloat)
  {
    var baseline := if IsTravel(a) then CalcTravelEmission(PFloat(a.distance), a.mode) else ZeroFloat;
    assert FloatForm(baseline) == baseline;
  }

  /** A record of an activity that is not travel has estimate 0.0 and no
      mode, distance or carbon-estimation failure in `extra`. */
  lemma NonTravelRecord(a: Activity, keys: ApiKeys, climatiq: HttpOutcome, weather: HttpOutcome)
    requires !IsTravel(a)
    ensures var item := Record(a, keys, climatiq, weather);
            && item[Co2Emission] == Number(ZeroFloat)
            && (Extra in item ==>
                  "mode" !in item[Extra].m && "distance_km" !in item[Extra].m && "climatiq_error" !in item[Extra].m)
  {
    EstimateWithoutLookup(a, keys, climatiq, weather);
  }

  /** When the carbon-estimation step fails (the call raises, the response
      has the wrong shape, or its value is not a number), the baseline
      estimate is stored and the failure's text is in `extra`, sanitised
      like any other string. */
  lemma ClimatiqFailureKeepsBaseline(a: Activity, keys: ApiKeys, climatiq: HttpOutcome, weather: HttpOutcome)
    requires IsTravel(a) && keys.climatiqKey != ""
    requires ClimatiqStep(CalcTravelEmission(PFloat(a.distance), a.mode), climatiq).error.Some?
    ensures var item := Record(a, keys, climatiq, weather);
            var failure := ClimatiqStep(CalcTravelEmission(PFloat(a.distance), a.mode), climatiq).error.value;
            && item[Co2Emission] == Number(CalcTravelEmission(PFloat(a.distance), a.mode))
            && Extra in item && "climatiq_error" in item[Extra].m
            && item[Extra].m["climatiq_error"] == SanitizedValue(PStr(failure))
  {
    var baseline := CalcTravelEmission(PFloat(a.distance), a.mode);
    assert FloatForm(baseline) == baseline;
  }

  /** A value found in the response replaces the baseline by float(value),
      and no failure is recorded. */
  lemma ClimatiqOverride(a: Activity, keys: ApiKeys, resp: PyValue, weather: HttpOutcome)
    requires IsTravel(a) && keys.climatiqKey != ""
    requires Co2FromResponse(resp).Ok? && !Co2FromResponse(resp).value.PNone?
    requires ToFloat(Co2FromResponse(resp).value).Ok?
    ensures var item := Record(a, keys, Responded(resp), weather);
            && item[Co2Emission] == Number(ToFloat(Co2FromResponse(resp).value).value)
            && Extra in item && "climatiq_error" !in item[Extra].m
  {
    var f := ToFloat(Co2FromResponse(resp).value).value;
    assert FloatForm(f) == f;
  }

  /** A falsy co2e (0, say) falls through to co2. */
  lemma ZeroCo2eFallsThrough(x: PyValue)
    requires Truthy(x)
    ensures Co2FromResponse(PDict(map["co2e" := PInt(0), "co2" := x])) == Ok(x)
  {
    var e := map["co2e" := PInt(0), "co2" := x];
    assert Get(e, "co2e", PNone) == PInt(0);
    assert Get(e, "co2", PNone) == x;
  }

  /** The nested shape data.co2e is used when neither co2e nor co2 is truthy. */
  lemma NestedCo2e(x: PyValue)
    ensures Co2FromResponse(PDict(map["data" := PDict(map["co2e" := x])])) == Ok(x)
  {
    var e := map["data" := PDict(map["co2e" := x])];
    assert "co2e" !in e && "co2" !in e;
  }

  /** A falsy `data` is itself the answer, so a response whose only field
      is "data": 0 replaces the estimate by 0.0. */
  lemma FalsyDataReplacesEstimate(baseline: Dec)
    ensures ClimatiqStep(baseline, Responded(PDict(map["data" := PInt(0)]))) == Estimate(ZeroFloat, None)
  {
    var e := map["data" := PInt(0)];
    assert "co2e" !in e && "co2" !in e;
    assert Co2FromResponse(PDict(e)) == Ok(PInt(0));
    assert ToFloat(PInt(0)) == Ok(ZeroFloat);
  }

  /** A falsy `data` that is None keeps the baseline, and one that float()
      rejects (an empty string, list or dict) records an error. */
  lemma FalsyDataOutcomes(baseline: Dec, data: PyValue)
    requires !Truthy(data) && !data.PBool? && !data.PInt? && !data.PFloat? && !data.PDecimal?
    ensures data.PNone? ==> ClimatiqStep(baseline, Responded(PDict(map["data" := data]))) == Estimate(baseline, None)
    ensures !data.PNone? ==> ClimatiqStep(baseline, Responded(PDict(map["data" := data]))).error.Some?
  {
    var e := map["data" := data];
    assert "co2e" !in e && "co2" !in e;
    assert Co2FromResponse(PDict(e)) == Ok(data);
    if data.PStr? {
      assert data.s == "";
    }
  }

  /** A travel activity whose mode is None keeps the distance in `extra` but
      not the mode, which the sanitiser drops. */
  lemma NoneModeNotStored(a: Activity, keys: ApiKeys, climatiq: HttpOutcome, weather: HttpOutcome)
    requires IsTravel(a) && a.mode.PNone?
    ensures var item := Record(a, keys, climatiq, weather);
            && Mode !in item
            && Extra in item && "mode" !in item[Extra].m && "distance_km" in item[Extra].m
  {
    assert IsCopied(Mode) && CopiedField(a, Mode) == PNone;
  }

  /** When the weather step fails, the record has no temperature and the
      failure's text is in `extra`. */
  lemma WeatherFailure(a: Activity, keys: ApiKeys, climatiq: HttpOutcome, weather: HttpOutcome)
    requires keys.openweatherKey != "" && WeatherStep(true, weather).error.Some?
    ensures var item := Record(a, keys, climatiq, weather);
            && Temperature !in item
            && Extra in item && "openweather_error" in item[Extra].m
            && item[Extra].m["openweather_error"] == SanitizedValue(PStr(WeatherStep(true, weather).error.value))
  {
  }

  /** The response carries the stored record: the same attributes, copied
      fields and strings unchanged, and every number, also inside `extra`,
      with the value of the stored Decimal. */
  lemma ResponseMatchesRecord(item: Item)
    ensures NativeItem(item).Keys == item.Keys
    ensures forall k :: k in item ==>
              match item[k]
              case Copied(v) => NativeItem(item)[k] == Copied(v)
              case Number(d) => NativeItem(item)[k].Number? && SameValue(NativeValue(NativeItem(item)[k].n), d)
              case ExtraMap(m) => NativeItem(item)[k].ExtraMap? && NativeExtraMatches(m, NativeItem(item)[k].m)
  {
    forall k | k in item
      ensures match item[k]
              case Copied(v) => NativeItem(item)[k] == Copied(v)
              case Number(d) => NativeItem(item)[k].Number? && SameValue(NativeValue(NativeItem(item)[k].n), d)
              case ExtraMap(m) => NativeItem(item)[k].ExtraMap? && NativeExtraMatches(m, NativeItem(item)[k].m)
    {
      match item[k]
      case Copied(v) =>
      case Number(d) => ToNativeKeepsValue(d);
      case ExtraMap(m) => NativeExtraKeepsValues(m);
    }
  }

  /** `n` is `m` with its numbers replaced by native numbers of equal value. */
  predicate NativeExtraMatches(m: map<string, ExtraValue<Dec>>, n: map<string, ExtraValue<Native>>)
  {
    && n.Keys == m.Keys
    && forall k :: k in m ==>
         match m[k]
         case XNumber(d) => n[k].XNumber? && SameValue(NativeValue(n[k].n), d)
         case XText(t) => n[k] == XText(t)
         case XJson(v) => n[k] == XJson(v)
  }

  lemma NativeExtraKeepsValues(m: map<string, ExtraValue<Dec>>)
    ensures NativeField(ExtraMap(m)).ExtraMap? && NativeExtraMatches(m, NativeField(ExtraMap(m)).m)
  {
    var n := NativeField(ExtraMap(m)).m;
    forall k | k in m && m[k].XNumber?
      ensures n[k].XNumber? && SameValue(NativeValue(n[k].n), m[k].n)
    {
      ToNativeKeepsValue(m[k].n);
    }
  }

  /** A bus trip, read: an event with activity_type "travel",
      mode "bus" and distance "10" is a bus trip of 10.0 km. */
  lemma BusTripActivity(fields: map<string, PyValue>, now: string)
    requires "activity_type" in fields && fields["activity_type"] == PStr("travel")
    requires "mode" in fields && fields["mode"] == PStr("bus")
    requires "distance" in fields && fields["distance"] == PStr("10")
    ensures var a := ReadActivity(fields, now);
            a.activityType == PStr("travel") && a.mode == PStr("bus") && a.distance == Dec(100, 1)
  {
    ParseTen();
  }

  /** A travel activity with neither API key set is stored with its
      distance, the baseline estimate, no temperature, and its mode and
      distance in `extra`. */
  lemma TravelWithoutKeys(a: Activity, climatiq: HttpOutcome, weather: HttpOutcome)
    requires IsTravel(a)
    ensures var item := Record(a, ApiKeys("", ""), climatiq, weather);
            && Distance in item && item[Distance] == Number(FloatForm(a.distance))
            && Co2Emission in item && item[Co2Emission] == Number(CalcTravelEmission(PFloat(a.distance), a.mode))
            && Temperature !in item
            && Extra in item
            && item[Extra] == ExtraMap(SanitizedExtra(Some(map["mode" := a.mode, "distance_km" := PFloat(a.distance)])))
  {
    var co2 := CalcTravelEmission(PFloat(a.distance), a.mode);
    assert FloatForm(co2) == co2;
    var extra := ExtraOf(a, None, None);
    assert extra == map["mode" := a.mode, "distance_km" := PFloat(a.distance)];
  }

  /** A bus trip, stored: with no API keys set, a bus trip of
      10.0 km is stored with distance 10.0 and estimate 0.89, without a
      temperature, and with the mode and the distance in `extra`. */
  lemma BusTripRecord(a: Activity, climatiq: HttpOutcome, weather: HttpOutcome)
    requires a.activityType == PStr("travel") && a.mode == PStr("bus") && a.distance == Dec(100, 1)
    ensures var item := Record(a, ApiKeys("", ""), climatiq, weather);
            && Distance in item && item[Distance] == Number(Dec(100, 1))
            && Co2Emission in item && item[Co2Emission] == Number(Dec(89, 2))
            && Temperature !in item
            && Extra in item && item[Extra] == ExtraMap(map["mode" := XText("bus"), "distance_km" := XNumber(Dec(100, 1))])
  {
    TravelWithoutKeys(a, climatiq, weather);
    assert FloatForm(Dec(100, 1)) == Dec(100, 1);
    LowerBus();
    BusTenKilometres("bus");
    ParseBus();
    TravelExtraSanitized("bus", Dec(100, 1));
  }

  /** The `extra` of a travel activity whose mode is a non-numeric string
      keeps the mode as text and the distance as the Decimal it prints. */
  lemma TravelExtraSanitized(mode: string, km: Dec)
    requires ParseDecimal(mode).None?
    ensures SanitizedExtra(Some(map["mode" := PStr(mode), "distance_km" := PFloat(km)]))
            == map["mode" := XText(mode), "distance_km" := XNumber(FloatForm(km))]
  {
    var m := map["mode" := PStr(mode), "distance_km" := PFloat(km)];
    assert SanitizedExtra(Some(m)).Keys == {"mode", "distance_km"};
  }

  lemma ParseBus()
    ensures ParseDecimal("bus").None?
  {
    assert !IsDigit("bus"[0]);
  }


}
