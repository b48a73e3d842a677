/**
 * The `Property` record of the handler: twelve text fields, an empty constructor and a
 * setter addressed by the decimal string of a slot number.
 */
module PropertyRecord {

  datatype Property = Property(
    id: string,
    state: string,
    county: string,
    street: string,
    city: string,
    zip: string,
    saleDate: string,
    saleTime: string,
    continuedDateTime: string,
    openingBid: string,
    saleLocationCity: string,
    firmFileNumber: string)
  {
    /** The field values in setter-key order: key `FieldKeys[n]` addresses `Fields()[n]`. */
    function Fields(): (fs: seq<string>)
      ensures |fs| == |FieldKeys|
    {
      [county, street, city, zip, saleDate, saleTime, continuedDateTime, openingBid,
       saleLocationCity, firmFileNumber, state, id]
    }

    /** The record after `Property::set(key, value)`, which `SetReplacesOneField` and
        `SetUnknownKey` describe. */
    function Set(key: string, value: string): Property
    {
      if key == "0" then this.(county := value)
      else if key == "1" then this.(street := value)
      else if key == "2" then this.(city := value)
      else if key == "3" then this.(zip := value)
      else if key == "4" then this.(saleDate := value)
      else if key == "5" then this.(saleTime := value)
      else if key == "6" then this.(continuedDateTime := value)
      else if key == "7" then this.(openingBid := value)
      else if key == "8" then this.(saleLocationCity := value)
      else if key == "9" then this.(firmFileNumber := value)
      else if key == "10" then this.(state := value)
      else if key == "11" then this.(id := value)
      else this
    }
  }

  /** The `Property` struct as the cycling loop holds it: a record in the vector that `set`
      updates in place through `last_mut`. `Value` is the record it holds now. */
  class PropertyCell {
    var id: string
    var state: string
    var county: string
    var street: string
    var city: string
    var zip: string
    var saleDate: string
    var saleTime: string
    var continuedDateTime: string
    var openingBid: string
    var saleLocationCity: string
    var firmFileNumber: string

    function Value(): Property
      reads this
    {
      Property(id, state, county, street, city, zip, saleDate, saleTime, continuedDateTime,
               openingBid, saleLocationCity, firmFileNumber)
    }

    /** `Property::new()`. */
    constructor ()
      ensures Value() == New()
    {
      id, state, county, street, city, zip := "", "", "", "", "", "";
      saleDate, saleTime, continuedDateTime, openingBid := "", "", "", "";
      saleLocationCity, firmFileNumber := "", "";
    }

    /** `Property::set(idx, value)`: the field the key names is overwritten, an unknown key
        is ignored. */
    method Set(idx: string, value: string)
      modifies this
      ensures Value() == old(Value()).Set(idx, value)
    {
      if idx == "0" {
        county := value;
      } else if idx == "1" {
        street := value;
      } else if idx == "2" {
        city := value;
      } else if idx == "3" {
        zip := value;
      } else if idx == "4" {
        saleDate := value;
      } else if idx == "5" {
        saleTime := value;
      } else if idx == "6" {
        continuedDateTime := value;
      } else if idx == "7" {
        openingBid := value;
      } else if idx == "8" {
        saleLocationCity := value;
      } else if idx == "9" {
        firmFileNumber := value;
      } else if idx == "10" {
        state := value;
      } else if idx == "11" {
        id := value;
      }
    }
  }

  /** The setter keys, "0" through "11". */
  const FieldKeys: seq<string> := ["0", "1", "2", "3", "4", "5", "6", "7", "8", "9", "10", "11"]

  /** `Property::new()`: every field is the empty string. */
  function New(): (p: Property)
    ensures forall n :: 0 <= n < |FieldKeys| ==> p.Fields()[n] == ""
  {
    Property("", "", "", "", "", "", "", "", "", "", "", "")
  }

  /** `set` with key n replaces field n of the record and keeps every other field. */
  lemma SetReplacesOneField(p: Property, n: nat, value: string)
    requires n < |FieldKeys|
    ensures p.Set(FieldKeys[n], value).Fields() == p.Fields()[n := value]
  {
  }

  /** `set` with a key other than "0" .. "11" leaves the record as it was. */
  lemma SetUnknownKey(p: Property, key: string, value: string)
    requires key !in FieldKeys
    ensures p.Set(key, value) == p
  {
  }

  /** A record is determined by its field values, so `SetReplacesOneField` describes the whole result of `set`. */
  lemma FieldsDetermine(p: Property, q: Property)
    requires p.Fields() == q.Fields()
    ensures p == q
  {
    assert forall n :: 0 <= n < |FieldKeys| ==> p.Fields()[n] == q.Fields()[n];
  }

  /** Setting a field twice keeps only the second value. */
  lemma SetTwice(p: Property, key: string, v: string, w: string)
    ensures p.Set(key, v).Set(key, w) == p.Set(key, w)
  {
    if key in FieldKeys {
      var n :| 0 <= n < |FieldKeys| && key == FieldKeys[n];
      SetReplacesOneField(p, n, v);
      SetReplacesOneField(p.Set(key, v), n, w);
      SetReplacesOneField(p, n, w);
      FieldsDetermine(p.Set(key, v).Set(key, w), p.Set(key, w));
    }
  }

  /** Setting a field to the value it already holds changes nothing. */
  lemma SetOwnValue(p: Property, n: nat)
    requires n < |FieldKeys|
    ensures p.Set(FieldKeys[n], p.Fields()[n]) == p
  {
    SetReplacesOneField(p, n, p.Fields()[n]);
    FieldsDetermine(p.Set(FieldKeys[n], p.Fields()[n]), p);
  }

  /** `n.to_string()` for the slot numbers the field cycler uses, 0..9. */
  function SlotKey(n: nat): (key: string)
    requires n < 10
    ensures key == FieldKeys[n]
  {
    [('0' as int + n) as char]
  }
}
