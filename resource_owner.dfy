/** The resource owner object built from a profile response: the `data`
    envelope unwrapped once, then read through accessors. */
module TwitterResourceOwner {
  import opened Wrappers
  import opened Php

  /** How a direct array read `$response[$key]` goes wrong: the key is absent
      ("Undefined array key") or the stored value is not an array. */
  datatype AccessError = UndefinedKey(key: string) | NotAnArray

  /** The stored, unwrapped response. Being a value, it never changes once built. */
  datatype ResourceOwner = ResourceOwner(response: Value) {

    /** `$this->response[$key]`: the stored value, null included, when the
        key is present; "Undefined array key" when it is absent; a failure
        when the stored value is not an array. */
    function Lookup(key: string): (r: Result<Value, AccessError>)
      ensures r.Ok? <==> response.Arr? && key in response.entries
      ensures r.Ok? ==> r.value == response.entries[key]
      ensures r == Err(NotAnArray) <==> !response.Arr?
      ensures r == Err(UndefinedKey(key)) <==> response.Arr? && key !in response.entries
    {
      if !response.Arr? then Err(NotAnArray)
      else if key in response.entries then Ok(response.entries[key])
      else Err(UndefinedKey(key))
    }

    function GetId(): (r: Result<Value, AccessError>)
      ensures r.Ok? <==> response.Arr? && "id" in response.entries
      ensures r.Ok? ==> r.value == response.entries["id"]
    {
      Lookup("id")
    }

    function GetName(): (r: Result<Value, AccessError>)
      ensures r.Ok? <==> response.Arr? && "name" in response.entries
      ensures r.Ok? ==> r.value == response.entries["name"]
    {
      Lookup("name")
    }

    function GetUsername(): (r: Result<Value, AccessError>)
      ensures r.Ok? <==> response.Arr? && "username" in response.entries
      ensures r.Ok? ==> r.value == response.entries["username"]
    {
      Lookup("username")
    }

    function GetProfileImageUrl(): (r: Result<Value, AccessError>)
      ensures r.Ok? <==> response.Arr? && "profile_image_url" in response.entries
      ensures r.Ok? ==> r.value == response.entries["profile_image_url"]
    {
      Lookup("profile_image_url")
    }

    /** `toArray()`: the stored array itself; a stored non-array fails the
        method's `array` return type. */
    function ToArray(): (r: Result<map<string, Value>, AccessError>)
      ensures r.Ok? <==> response.Arr?
      ensures r.Ok? ==> r.value == response.entries
    {
      if response.Arr? then Ok(response.entries) else Err(NotAnArray)
    }

    /** `getResponseValue($key)`: the stored value when it is set, else null. */
    function GetResponseValue(key: string): (r: Value)
      ensures !r.Null? <==> response.Arr? && Isset(response.entries, key)
      ensures !r.Null? ==> r == response.entries[key]
    {
      CoalesceOffset(response, key, Null)
    }
  }

  /** The constructor: `raw['data']` when set, otherwise an empty array. */
  function NewResourceOwner(raw: map<string, Value>): (o: ResourceOwner)
    ensures Isset(raw, "data") ==> o.response == raw["data"]
    ensures !Isset(raw, "data") ==> o.response == Arr(map[])
  {
    ResourceOwner(Coalesce(raw, "data", Arr(map[])))
  }

  /** Without a `data` envelope the owner is empty: toArray() is the empty
      array, every defensive read is null and every direct read fails. */
  lemma NoDataEnvelope(raw: map<string, Value>, key: string)
    requires !Isset(raw, "data")
    ensures NewResourceOwner(raw).ToArray() == Ok(map[])
    ensures NewResourceOwner(raw).GetResponseValue(key).Null?
    ensures NewResourceOwner(raw).GetId() == Err(UndefinedKey("id"))
    ensures NewResourceOwner(raw).GetName() == Err(UndefinedKey("name"))
    ensures NewResourceOwner(raw).GetUsername() == Err(UndefinedKey("username"))
    ensures NewResourceOwner(raw).GetProfileImageUrl() == Err(UndefinedKey("profile_image_url"))
  {
  }

  /** With a `data` array m, the owner exposes exactly m: toArray() is m, and
      each defensive read is m's value, a null one included. */
  lemma UnwrapsDataEnvelope(raw: map<string, Value>, m: map<string, Value>, key: string)
    requires "data" in raw && raw["data"] == Arr(m)
    ensures NewResourceOwner(raw).ToArray() == Ok(m)
    ensures NewResourceOwner(raw).GetResponseValue(key) == if key in m then m[key] else Null
  {
  }

  /** A non-null defensive read agrees with the direct accessor for its key,
      and a direct read of a non-null value agrees with the defensive one. */
  lemma AccessorsAgreeWithResponseValue(o: ResourceOwner)
    ensures !o.GetResponseValue("id").Null? ==> o.GetId() == Ok(o.GetResponseValue("id"))
    ensures !o.GetResponseValue("name").Null? ==> o.GetName() == Ok(o.GetResponseValue("name"))
    ensures !o.GetResponseValue("username").Null? ==> o.GetUsername() == Ok(o.GetResponseValue("username"))
    ensures !o.GetResponseValue("profile_image_url").Null? ==>
      o.GetProfileImageUrl() == Ok(o.GetResponseValue("profile_image_url"))
    ensures o.GetId().Ok? && !o.GetId().value.Null? ==> o.GetResponseValue("id") == o.GetId().value
    ensures o.GetName().Ok? && !o.GetName().value.Null? ==> o.GetResponseValue("name") == o.GetName().value
    ensures o.GetUsername().Ok? && !o.GetUsername().value.Null? ==>
      o.GetResponseValue("username") == o.GetUsername().value
    ensures o.GetProfileImageUrl().Ok? && !o.GetProfileImageUrl().value.Null? ==>
      o.GetResponseValue("profile_image_url") == o.GetProfileImageUrl().value
  {
  }

  /** Expected behaviour on a typical profile response, wrapped in `data`. */
  lemma ExampleProfile()
    ensures var profile := map["id" := Str("42"), "name" := Str("Ada"), "username" := Str("ada"),
                               "profile_image_url" := Str("http://x/y.png")];
      var o := NewResourceOwner(map["data" := Arr(profile)]);
      && o.GetId() == Ok(Str("42"))
      && o.GetName() == Ok(Str("Ada"))
      && o.GetUsername() == Ok(Str("ada"))
      && o.GetProfileImageUrl() == Ok(Str("http://x/y.png"))
      && o.ToArray() == Ok(profile)
  {
  }
}
