/** The pure core of the directory-service client (jcapi.go): operation codes
    and their HTTP verbs, the hand-built JSON fragments used for filter
    queries, tag association for a user, and the coercions applied to
    decoded JSON values. Characters stand for the bytes of Go strings; the
    fragments are assembled without any escaping. */
module JcApi {
  import opened Wrappers
  import opened Sequences
  import opened GoStrings

  type uint8 = x: int | 0 <= x < 0x100
  type uint16 = x: int | 0 <= x < 0x1_0000

  /** An operation code (Go `JCOp`, a `uint8`). */
  type JCOp = uint8

  const Read: JCOp := 1
  const Insert: JCOp := 2
  const Update: JCOp := 3
  const Delete: JCOp := 4
  const List: JCOp := 5

  /** The client's configuration. */
  datatype JCAPI = JCAPI(apiKey: string, urlBase: string)

  // ---------------------------------------------------------------------
  // Operation codes and HTTP verbs

  predicate IsKnownOp(op: JCOp)
  {
    Read <= op <= List
  }

  /** The HTTP verb for an operation code: one of the five verbs for a
      known code (including the non-standard "LIST"), and "" for any other. */
  function MapJCOpToHTTP(op: JCOp): (verb: string)
    ensures verb == "" <==> !IsKnownOp(op)
    ensures IsKnownOp(op) ==> verb in {"GET", "POST", "PUT", "DELETE", "LIST"}
  {
    match op
    case 1 => "GET"
    case 2 => "POST"
    case 3 => "PUT"
    case 4 => "DELETE"
    case 5 => "LIST"
    case _ => ""
  }

  /** The operation code a verb comes from, the inverse of MapJCOpToHTTP. */
  function OpOfVerb(verb: string): Option<JCOp>
  {
    if verb == "GET" then Some(Read)
    else if verb == "POST" then Some(Insert)
    else if verb == "PUT" then Some(Update)
    else if verb == "DELETE" then Some(Delete)
    else if verb == "LIST" then Some(List)
    else None
  }

  /** The verb table: read, insert, update, delete and list give GET, POST,
      PUT, DELETE and LIST, and every other code gives "". */
  lemma VerbTable(op: JCOp)
    ensures MapJCOpToHTTP(Read) == "GET" && MapJCOpToHTTP(Insert) == "POST"
    ensures MapJCOpToHTTP(Update) == "PUT" && MapJCOpToHTTP(Delete) == "DELETE"
    ensures MapJCOpToHTTP(List) == "LIST"
    ensures !IsKnownOp(op) ==> MapJCOpToHTTP(op) == ""
  {
  }

  /** Every known code is recovered from its verb, and only known codes have
      one: the mapping is one-to-one on the five codes. */
  lemma VerbRoundTrip(op: JCOp)
    ensures IsKnownOp(op) ==> OpOfVerb(MapJCOpToHTTP(op)) == Some(op)
    ensures !IsKnownOp(op) ==> OpOfVerb(MapJCOpToHTTP(op)) == None
  {
  }

  /** The request helpers `post`, `put`, `delete`, `get` and `list`, each of
      which dispatches with the verb of one fixed operation code. */
  datatype Helper = PostHelper | PutHelper | DeleteHelper | GetHelper | ListHelper

  function HelperOp(h: Helper): JCOp
  {
    match h
    case PostHelper => Insert
    case PutHelper => Update
    case DeleteHelper => Delete
    case GetHelper => Read
    case ListHelper => List
  }

  /** The verb a helper hands to the dispatcher: never empty, and different
      helpers use different verbs. */
  function HelperVerb(h: Helper): (verb: string)
    ensures verb != ""
    ensures OpOfVerb(verb) == Some(HelperOp(h))
  {
    MapJCOpToHTTP(HelperOp(h))
  }

  // ---------------------------------------------------------------------
  // JSON fragments

  /** `v` between double quotes, with no escaping. */
  function Quote(v: string): string
  {
    "\"" + v + "\""
  }

  function QuoteAll(s: seq<string>): (r: seq<string>)
    ensures |r| == |s|
    ensures forall k :: 0 <= k < |s| ==> r[k] == Quote(s[k])
  {
    seq(|s|, k requires 0 <= k < |s| => Quote(s[k]))
  }

  /** The JSON text `"field":[...]` holding the quoted strings of `s`. */
  function StringArrayText(field: string, s: seq<string>): string
  {
    Quote(field) + ":[" + Join(QuoteAll(s), ',') + "]"
  }

  /** Builds `"field":["v1","v2",...]` by appending each quoted element,
      with a comma before every element but the first. A nil and an empty
      slice are both the empty sequence here, and both give `"field":[]`. */
  method BuildJSONStringArray(field: string, s: seq<string>) returns (r: string)
    ensures r == StringArrayText(field, s)
    ensures s == [] ==> r == Quote(field) + ":[]"
  {
    var returnVal := "[";
    var afterFirst := false;
    for i := 0 to |s|
      invariant afterFirst <==> i > 0
      invariant returnVal == "[" + Join(QuoteAll(s[..i]), ',')
    {
      if afterFirst {
        returnVal := returnVal + ",";
      }
      returnVal := returnVal + Quote(s[i]);
      afterFirst := true;
      assert QuoteAll(s[..i + 1]) == QuoteAll(s[..i]) + [Quote(s[i])];
      if i > 0 {
        JoinSnoc(QuoteAll(s[..i]), Quote(s[i]), ',');
      }
    }
    assert s[..|s|] == s;
    returnVal := returnVal + "]";
    r := Quote(field) + ":" + returnVal;
  }

  /** When no element holds a comma, splitting the array body on commas
      gives back the quoted elements, one each. */
  lemma StringArrayItems(s: seq<string>)
    requires |s| >= 1
    requires forall k :: 0 <= k < |s| ==> ',' !in s[k]
    ensures Split(Join(QuoteAll(s), ','), ',') == QuoteAll(s)
  {
    var q := QuoteAll(s);
    forall k | 0 <= k < |q| ensures ',' !in q[k] {
      assert q[k] == "\"" + s[k] + "\"";
    }
    SplitJoin(q, ',');
  }

  /** For `n >= 1` comma-free elements and a comma-free field name, the
      fragment holds exactly `n - 1` commas. */
  lemma StringArrayCommas(field: string, s: seq<string>)
    requires |s| >= 1
    requires ',' !in field
    requires forall k :: 0 <= k < |s| ==> ',' !in s[k]
    ensures CountChar(StringArrayText(field, s), ',') == |s| - 1
  {
    var body := Join(QuoteAll(s), ',');
    StringArrayItems(s);
    SplitLength(body, ',');
    NoCharNoCount(Quote(field) + ":[", ',');
    NoCharNoCount("]", ',');
    CountCharAppend(Quote(field) + ":[", body, ',');
    CountCharAppend(Quote(field) + ":[" + body, "]", ',');
  }

  lemma NoCharNoCount(s: string, c: char)
    requires c !in s
    ensures CountChar(s, c) == 0
  {
  }

  /** `"key":"value"`, with no escaping of either part. */
  function BuildJSONKeyValuePair(key: string, value: string): (r: string)
    ensures |r| == |key| + |value| + 5
    ensures '"' !in key && '"' !in value ==> ParseStringPair(r) == Some((key, value))
  {
    var r := "\"" + key + "\":\"" + value + "\"";
    Join3(key, ":", value, '"');
    assert r == Quote(Join([key, ":", value], '"'));
    if '"' !in key && '"' !in value then
      SplitJoin([key, ":", value], '"');
      r
    else
      r
  }

  /** Reads back a fragment `"key":"value"` whose key and value hold no
      double quote; anything else gives None. */
  function ParseStringPair(t: string): Option<(string, string)>
  {
    if |t| >= 2 && t[0] == '"' && t[|t| - 1] == '"' then
      var parts := Split(t[1..|t| - 1], '"');
      if |parts| == 3 && parts[1] == ":" then Some((parts[0], parts[2])) else None
    else None
  }

  /** Every fragment ParseStringPair accepts is the one BuildJSONKeyValuePair
      makes from what it reads. */
  lemma ParseStringPairSound(t: string)
    requires ParseStringPair(t).Some?
    ensures BuildJSONKeyValuePair(ParseStringPair(t).value.0, ParseStringPair(t).value.1) == t
  {
    var inner := t[1..|t| - 1];
    var parts := Split(inner, '"');
    JoinSplit(inner, '"');
    assert parts == [parts[0], parts[1], parts[2]];
    Join3(parts[0], parts[1], parts[2], '"');
    assert t == "\"" + inner + "\"";
  }

  /** Without escaping, different keys and values can give the same
      fragment: a quote inside the key shifts where the value seems to start. */
  lemma KeyValuePairNotInjective()
    ensures BuildJSONKeyValuePair("a\":\"b", "c") == BuildJSONKeyValuePair("a", "b\":\"c")
  {
  }

  function BoolText(b: bool): string
  {
    if b then "true" else "false"
  }

  /** `"key":"true"` or `"key":"false"`: the boolean is always written as a
      quoted string, never as a bare JSON literal. */
  function BuildJSONKeyValueBoolPair(key: string, value: bool): (r: string)
    ensures r == BuildJSONKeyValuePair(key, BoolText(value))
    ensures r[|r| - 1] == '"' && r[|key| + 3] == '"'
    ensures '"' !in key ==> ParseStringPair(r) == Some((key, BoolText(value)))
  {
    if value == true then
      "\"" + key + "\":\"true\""
    else
      "\"" + key + "\":\"false\""
  }

  const EmailFilterPrefix: string := "{\"filter\": [{\"email\" : \""
  const EmailFilterSuffix: string := "\"}]}"

  /** The filter `{"filter": [{"email" : "<email>"}]}` with the address
      inserted verbatim; the receiver is not used. */
  function EmailFilter(jc: JCAPI, email: string): (r: string)
    ensures |r| == |EmailFilterPrefix| + |email| + |EmailFilterSuffix|
    ensures EmailOfFilter(r) == Some(email)
  {
    EmailFilterPrefix + email + EmailFilterSuffix
  }

  /** The address inside a filter built by EmailFilter, if `f` has its shape. */
  function EmailOfFilter(f: string): Option<string>
  {
    var p, q := |EmailFilterPrefix|, |EmailFilterSuffix|;
    if |f| >= p + q && f[..p] == EmailFilterPrefix && f[|f| - q..] == EmailFilterSuffix
    then Some(f[p..|f| - q])
    else None
  }

  /** Every string EmailOfFilter accepts is the filter for the address it reads. */
  lemma EmailOfFilterSound(jc: JCAPI, f: string)
    requires EmailOfFilter(f).Some?
    ensures EmailFilter(jc, EmailOfFilter(f).value) == f
  {
    var p, q := |EmailFilterPrefix|, |EmailFilterSuffix|;
    assert f == f[..p] + f[p..|f| - q] + f[|f| - q..];
  }

  /** The filter for "a@b.com", byte for byte. */
  lemma EmailFilterExample(jc: JCAPI)
    ensures EmailFilter(jc, "a@b.com") == "{\"filter\": [{\"email\" : \"a@b.com\"}]}"
  {
  }

  // ---------------------------------------------------------------------
  // Tags of a user

  /** A tag and the ids of the users assigned to it. */
  datatype JCTag = JCTag(id: string, systemUsers: seq<string>)

  /** The tags `addTags` adds for `userId`, in tag order: each tag once per
      occurrence of `userId` in its member list. */
  function TagsOf(userId: string, tags: seq<JCTag>): seq<JCTag>
  {
    if tags == [] then []
    else
      var last := tags[|tags| - 1];
      TagsOf(userId, tags[..|tags| - 1]) + Repeat(last, Count(last.systemUsers, userId))
  }

  /** Tag association over a concatenation is the concatenation of the
      associations: earlier tags come first. */
  lemma {:induction false} TagsOfAppend(userId: string, a: seq<JCTag>, b: seq<JCTag>)
    ensures TagsOf(userId, a + b) == TagsOf(userId, a) + TagsOf(userId, b)
    decreases |b|
  {
    if b == [] {
      assert a + b == a;
    } else {
      var b' := b[..|b| - 1];
      assert (a + b)[..|a + b| - 1] == a + b';
      TagsOfAppend(userId, a, b');
    }
  }

  /** A tag is associated with the user exactly when it is one of the tags
      and lists the user's id. */
  lemma {:induction false} TagsOfMembership(userId: string, tags: seq<JCTag>, t: JCTag)
    ensures t in TagsOf(userId, tags) <==> t in tags && userId in t.systemUsers
  {
    if tags != [] {
      var init, last := tags[..|tags| - 1], tags[|tags| - 1];
      TagsOfMembership(userId, init, t);
      CountPositive(last.systemUsers, userId);
      assert tags == init + [last];
    }
  }

  /** A tag appears once for every entry of the tag list and every
      occurrence of the id in its members: duplicates are not merged. */
  lemma {:induction false} TagsOfCount(userId: string, tags: seq<JCTag>, t: JCTag)
    ensures Count(TagsOf(userId, tags), t) == Count(tags, t) * Count(t.systemUsers, userId)
  {
    if tags != [] {
      var init, last := tags[..|tags| - 1], tags[|tags| - 1];
      var n := Count(last.systemUsers, userId);
      var m := Count(t.systemUsers, userId);
      var c := Count(init, t);
      var d := if last == t then 1 else 0;
      assert TagsOf(userId, tags) == TagsOf(userId, init) + Repeat(last, n);
      TagsOfCount(userId, init, t);
      CountAppend(TagsOf(userId, init), Repeat(last, n), t);
      CountRepeat(last, n, t);
      assert Count(TagsOf(userId, tags), t) == c * m + d * m;
      assert Count(tags, t) == c + d;
      MulDistributes(c, d, m);
    }
  }

  lemma MulDistributes(c: nat, d: nat, m: nat)
    ensures (c + d) * m == c * m + d * m
  {
  }

  /** User "U1" with tags T1 = {U1, U2} and T2 = {U3} is associated with T1 only. */
  lemma TagsOfExample()
    ensures TagsOf("U1", [JCTag("T1", ["U1", "U2"]), JCTag("T2", ["U3"])]) == [JCTag("T1", ["U1", "U2"])]
  {
    var t1, t2 := JCTag("T1", ["U1", "U2"]), JCTag("T2", ["U3"]);
    assert [t1, t2][..1] == [t1];
    assert ["U1", "U2"][..1] == ["U1"];
    assert ["U1"][..0] == [];
    assert ["U3"][..0] == [];
    assert Count(t1.systemUsers, "U1") == 1;
    assert Count(t2.systemUsers, "U1") == 0;
  }

  /** A user; `addTags` appends to its tag list in place. */
  class JCUser {
    var id: string
    var tags: seq<JCTag>

    constructor (id: string, tags: seq<JCTag>)
      ensures this.id == id && this.tags == tags
    {
      this.id := id;
      this.tags := tags;
    }

    /** Appends every tag that lists this user, once per matching entry. */
    method AddTags(allTags: seq<JCTag>)
      modifies this`tags
      ensures tags == old(tags) + TagsOf(id, allTags)
      ensures id == old(id)
    {
      for i := 0 to |allTags|
        invariant tags == old(tags) + TagsOf(id, allTags[..i])
      {
        var tag := allTags[i];
        for j := 0 to |tag.systemUsers|
          invariant tags == old(tags) + TagsOf(id, allTags[..i])
                                      + Repeat(tag, Count(tag.systemUsers[..j], id))
        {
          if tag.systemUsers[j] == id {
            tags := tags + [tag];
          }
          assert tag.systemUsers[..j + 1][..j] == tag.systemUsers[..j];
        }
        assert tag.systemUsers[..|tag.systemUsers|] == tag.systemUsers;
        assert allTags[..i + 1][..i] == allTags[..i];
      }
      assert allTags[..|allTags|] == allTags;
    }
  }

  // ---------------------------------------------------------------------
  // Decoded JSON values

  /** A value held in a Go `interface{}` after JSON decoding. `JUint16` is a
      value of dynamic type `uint16`; `JNumber` is a number of any other
      dynamic type, whatever its value. */
  datatype JSONValue =
    | JString(str: string)
    | JUint16(u16: uint16)
    | JNumber(num: real)
    | JBool(b: bool)
    | JArray(items: seq<JSONValue>)
    | JObject(members: seq<(string, JSONValue)>)
    | JNull

  /** The strings of `input`, or, when an element is not a string, a failure
      naming the first such element (the failed type assertion, a panic in
      the source). Strict: it never coerces. */
  method ExtractStringArray(jc: JCAPI, input: seq<JSONValue>) returns (r: Result<seq<string>, nat>)
    ensures r.Success? <==> forall k :: 0 <= k < |input| ==> input[k].JString?
    ensures r.Success? ==> |r.value| == |input|
    ensures r.Success? ==> forall k :: 0 <= k < |input| ==> input[k] == JString(r.value[k])
    ensures r.Failure? ==> r.error < |input| && !input[r.error].JString?
    ensures r.Failure? ==> forall k :: 0 <= k < r.error ==> input[k].JString?
  {
    var returnVal: seq<string> := [];
    for i := 0 to |input|
      invariant |returnVal| == i
      invariant forall k :: 0 <= k < i ==> input[k] == JString(returnVal[k])
    {
      if !input[i].JString? {
        return Failure(i);
      }
      returnVal := returnVal + [input[i].str];
    }
    r := Success(returnVal);
  }

  /** The string held by `input`, or "" for a value of any other type. */
  function GetStringOrNil(input: JSONValue): (r: string)
    ensures input.JString? ==> r == input.str
    ensures !input.JString? ==> r == ""
  {
    match input
    case JString(s) => s
    case _ => ""
  }

  /** The `uint16` held by `input`, or 0 for a value of any other type,
      including a number of another dynamic type. */
  function GetUint16OrNil(input: JSONValue): (r: uint16)
    ensures input.JUint16? ==> r == input.u16
    ensures !input.JUint16? ==> r == 0
  {
    match input
    case JUint16(n) => n
    case _ => 0
  }

  /** Strict and lenient extraction agree on well-typed input: element by
      element, the array is what GetStringOrNil reads. */
  lemma StrictAgreesWithLenient(input: seq<JSONValue>, out: seq<string>)
    requires |out| == |input|
    requires forall k :: 0 <= k < |input| ==> input[k] == JString(out[k])
    ensures forall k :: 0 <= k < |input| ==> GetStringOrNil(input[k]) == out[k]
  {
  }

  /** The lenient readers cannot tell a missing value from a zero one. */
  lemma LenientZeroIsAmbiguous(v: JSONValue)
    requires !v.JString? && !v.JUint16?
    ensures GetStringOrNil(v) == GetStringOrNil(JString(""))
    ensures GetUint16OrNil(v) == GetUint16OrNil(JUint16(0))
  {
  }
}
