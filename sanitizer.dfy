/** sanitize_extra_for_dynamo: turns the open-ended `extra` dictionary into
    one whose every value the storage layer accepts, a Decimal or a string. */
module Sanitizer {
  import opened Decimals
  import opened PyValues
  import opened Coercion

  /** A value of the `extra` map as it is stored: a number (a Decimal in the
      stored record, a native number in the response), a string, or the
      string json.dumps makes of a list or a dict (kept here as the value it
      serialises). */
  datatype ExtraValue<+N> = XNumber(n: N) | XText(s: string) | XJson(of: PyValue)

  /** Every stored extra value is a Decimal or a string. */
  predicate IsStorable(x: ExtraValue<Dec>)
  {
    x.XNumber? || x.XText? || (x.XJson? && (x.of.PList? || x.of.PDict?))
  }

  /** The per-value rules, stated on what a value is rather than on how the
      loop tests it: a Decimal is kept, an int or a float becomes the Decimal
      it prints, a bool becomes its name, a string that is a decimal
      literal becomes that Decimal and any other string is kept, and a list
      or a dict becomes its JSON text. */
  function SanitizedValue(v: PyValue): (x: ExtraValue<Dec>)
    requires !v.PNone?
    ensures IsStorable(x)
  {
    match v
    case PDecimal(d) => XNumber(d)
    case PInt(i) => XNumber(Dec(i, 0))
    case PFloat(f) => XNumber(FloatForm(f))
    case PBool(b) => XText(if b then "True" else "False")
    case PStr(s) => if ParseDecimal(s).Some? then XNumber(ParseDecimal(s).value) else XText(s)
    case PList(_) => XJson(v)
    case PDict(_) => XJson(v)
  }

  /** The dictionary the loop walks: the given one, or an empty one for None. */
  function Entries(extraDict: Option<map<string, PyValue>>): map<string, PyValue>
  {
    if extraDict.Some? then extraDict.value else map[]
  }

  /** The sanitised dictionary: exactly the keys whose value is not None,
      each with its sanitised value. */
  function SanitizedExtra(extraDict: Option<map<string, PyValue>>): (r: map<string, ExtraValue<Dec>>)
    ensures r.Keys == set k | k in Entries(extraDict) && !Entries(extraDict)[k].PNone?
    ensures forall k :: k in r ==> r[k] == SanitizedValue(Entries(extraDict)[k]) && IsStorable(r[k])
  {
    var m := Entries(extraDict);
    map k | k in m && !m[k].PNone? :: SanitizedValue(m[k])
  }

  /** sanitize_extra_for_dynamo(extra_dict): fills `cleaned` key by key. */
  method SanitizeExtraForDynamo(extraDict: Option<map<string, PyValue>>)
    returns (cleaned: map<string, ExtraValue<Dec>>)
    ensures cleaned == SanitizedExtra(extraDict)
    ensures extraDict.None? || extraDict == Some(map[]) ==> cleaned == map[]
  {
    var m := if extraDict.Some? then extraDict.value else map[];
    cleaned := map[];
    var todo := m.Keys;
    while todo != {}
      invariant todo <= m.Keys
      invariant cleaned.Keys == set k | k in m && k !in todo && !m[k].PNone?
      invariant forall k :: k in cleaned ==> cleaned[k] == SanitizedValue(m[k])
      decreases todo
    {
      var k :| k in todo;
      todo := todo - {k};
      var v := m[k];
      if v.PNone? {
        continue;
      }
      if v.PDecimal? {
        cleaned := cleaned[k := XNumber(v.d)];
        continue;
      }
      // bool is a subclass of int, so it takes this branch too
      if v.PBool? || v.PInt? || v.PFloat? {
        var dec := ToDecimalSafe(v, None);
        if dec.Some? {
          cleaned := cleaned[k := XNumber(dec.value)];
        } else {
          cleaned := cleaned[k := XText(Str(v))];
        }
        continue;
      }
      if v.PStr? {
        var text := v.s;
        // float(v) decides whether the string is numeric
        if ToFloat(v).Ok? {
          var dec := ToDecimalSafe(v, None);
          if dec.Some? {
            cleaned := cleaned[k := XNumber(dec.value)];
          } else {
            cleaned := cleaned[k := XText(text)];
          }
        } else {
          cleaned := cleaned[k := XText(text)];
        }
        continue;
      }
      // json.dumps cannot fail on a decoded list or dict
      cleaned := cleaned[k := XJson(v)];
    }
    assert cleaned.Keys == SanitizedExtra(extraDict).Keys;
  }

  /** The map {"a": 1, "b": "hello", "c": "3.5",
      "d": None} keeps a as 1, c as 3.5 and b as text, and drops d. */
  lemma SanitizeExample()
    ensures var r := SanitizedExtra(Some(map["a" := PInt(1), "b" := PStr("hello"), "c" := PStr("3.5"), "d" := PNone]));
            && r.Keys == {"a", "b", "c"}
            && r["a"] == XNumber(Dec(1, 0))
            && r["b"] == XText("hello")
            && r["c"] == XNumber(Dec(35, 1))
  {
    var m := map["a" := PInt(1), "b" := PStr("hello"), "c" := PStr("3.5"), "d" := PNone];
    assert SanitizedValue(PStr("hello")) == XText("hello") by { ParseHello(); }
    assert SanitizedValue(PStr("3.5")) == XNumber(Dec(35, 1)) by { ParseThreeAndAHalf(); }
    SanitizedKeys(m);
  }

  /** Which keys survive, for a map of four keys. */
  lemma SanitizedKeys(m: map<string, PyValue>)
    requires m.Keys == {"a", "b", "c", "d"} && m["d"].PNone?
    requires !m["a"].PNone? && !m["b"].PNone? && !m["c"].PNone?
    ensures SanitizedExtra(Some(m)).Keys == {"a", "b", "c"}
  {
  }

  lemma ParseHello()
    ensures ParseDecimal("hello").None?
  {
    assert !IsDigit("hello"[0]);
  }

  lemma ParseThreeAndAHalf()
    ensures ParseDecimal("3.5") == Some(Dec(35, 1))
  {
    assert DotIndex("3.5") == 1;
    assert "3.5"[..1] == "3";
    assert "3.5"[2..] == "5";
    assert "3"[..0] == "";
    assert "5"[..0] == "";
  }
}
