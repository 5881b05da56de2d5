/** A JSON value as the proxy's code sees it: an object is a finite map, so key order never matters. */
module Json {
  import opened Base

  datatype Value =
    | Null
    | Bool(flag: bool)
    | Num(n: int)
    | Float(r: real)
    | Str(text: string)
    | Arr(items: seq<Value>)
    | Obj(fields: map<string, Value>)
  {
    /** Member lookup; anything but an object has no members. */
    function Get(key: string): Option<Value> {
      if Obj? && key in fields then Some(fields[key]) else None
    }

    function AsStr(): Option<string> {
      if Str? then Some(text) else None
    }

    function AsArr(): Option<seq<Value>> {
      if Arr? then Some(items) else None
    }

    /** Signed 64-bit reading of an integer. */
    function AsI64(): Option<int> {
      if Num? && -0x8000_0000_0000_0000 <= n < 0x8000_0000_0000_0000 then Some(n) else None
    }

    /** Unsigned 64-bit reading of an integer. */
    function AsU64(): Option<nat> {
      if Num? && 0 <= n < 0x1_0000_0000_0000_0000 then Some(n) else None
    }
  }

  /** Member lookup through an optional value. */
  function Field(v: Option<Value>, key: string): Option<Value> {
    if v.Some? then v.value.Get(key) else None
  }

  function StrOf(v: Option<Value>): Option<string> {
    if v.Some? then v.value.AsStr() else None
  }

  function ArrOf(v: Option<Value>): Option<seq<Value>> {
    if v.Some? then v.value.AsArr() else None
  }
}
