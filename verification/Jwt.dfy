/**
 * Tokens: `make_jwt` of the mock identity provider against the payload decoders of the authorization bridge
 * and of the provider's own `userinfo` endpoint.
 */
module Jwt {
  import opened Basics
  import opened Json
  import opened JsonRoundTrip
  import opened JsonAscii
  import opened Base64

  const ISSUER := "http://mock-oidc:9000"
  const CLIENT_ID := "ztlab-client"
  const BEARER := "Bearer "

  /** `b64_encode` */
  function B64Encode(data: Json): string {
    DumpsIsAscii(data, Plain);
    StripPads(UrlEncode(Ascii(Dumps(data, Plain))))
  }

  function HeaderPart(): Json {
    Obj(Field("alg", Str("HS256"), Field("typ", Str("JWT"), Empty)))
  }

  /** The registered claims: the two clock readings and the identifier are the caller's. */
  function Registered(iat: int, now: int, jti: string): Fields {
    Field("iss", Str(ISSUER), Field("aud", Str(CLIENT_ID), Field("iat", Int(iat),
      Field("exp", Int(now + 3600), Field("jti", Str(jti), Empty)))))
  }

  function Claims(payload: Fields, iat: int, now: int, jti: string): Fields {
    Merge(Registered(iat, now, jti), payload)
  }

  function SignaturePart(): Json { Obj(Field("sig", Str("mock"), Empty)) }

  function Parts(payload: Fields, iat: int, now: int, jti: string): (parts: seq<string>)
    ensures |parts| == 3
  {
    [B64Encode(HeaderPart()), B64Encode(Obj(Claims(payload, iat, now, jti))), B64Encode(SignaturePart())]
  }

  function MakeJwt(payload: Fields, iat: int, now: int, jti: string): string {
    Join(Parts(payload, iat, now, jti), '.')
  }

  // ---- decoding ----

  /** The JSON text of one part of a token; `None` stands for the `ValueError`s that the callers catch. */
  function DecodePart(part: string): Option<Json> {
    match UrlDecode(part + Pads((4 - |part| % 4) % 4))
    case None => None
    case Some(b) =>
      match DecodeUtf8(b)
      case None => None
      case Some(s) => Loads(s)
  }

  /** The payload of the token in an `Authorization` header, for both decoders */
  function Payload(header: string): Option<Json> {
    if !(BEARER <= header) then None
    else
      var parts := Split(header[|BEARER|..], '.');
      if |parts| != 3 then None else DecodePart(parts[1])
  }

  /** `_decode_id_token` */
  function DecodeIdToken(header: string): Json {
    match Payload(header)
    case Some(v) => v
    case None => Obj(Empty)
  }

  // ---- the round trip ----

  lemma PartIsUrlSafe(data: Json)
    ensures '.' !in B64Encode(data) && '=' !in B64Encode(data) && |B64Encode(data)| % 4 != 1
  {
    DumpsIsAscii(data, Plain);
    StrippedShape(Ascii(Dumps(data, Plain)));
    assert forall c :: c in B64Encode(data) ==> IsUrlSafe(c);
  }

  lemma PartDecodes(data: Json)
    requires Wf(data)
    ensures DecodePart(B64Encode(data)) == Some(data)
  {
    var text := Dumps(data, Plain);
    assert Loads(text) == Some(data) by { LoadsDumps(data, Plain, ""); }
    assert IsAscii(text) by { DumpsIsAscii(data, Plain); }
    TextDecodes(text, data);
  }

  lemma TextDecodes(text: string, v: Json)
    requires IsAscii(text) && Loads(text) == Some(v)
    ensures DecodePart(StripPads(UrlEncode(Ascii(text)))) == Some(v)
  {
    var b := Ascii(text);
    StrippedDecodes(b);
    Utf8Ascii(text);
    DecodeSteps(StripPads(UrlEncode(b)), b, text, v);
  }

  lemma DecodeSteps(part: string, b: seq<byte>, s: string, v: Json)
    requires UrlDecode(part + Pads((4 - |part| % 4) % 4)) == Some(b)
    requires DecodeUtf8(b) == Some(s) && Loads(s) == Some(v)
    ensures DecodePart(part) == Some(v)
  {}

  lemma RegisteredIsWf(iat: int, now: int, jti: string)
    ensures WfFields(Registered(iat, now, jti))
  {
    var f1 := Field("jti", Str(jti), Empty);
    var f2 := Field("exp", Int(now + 3600), f1);
    var f3 := Field("iat", Int(iat), f2);
    assert Keys(f1) == {"jti"};
    assert Keys(f2) == {"exp", "jti"};
    assert Keys(f3) == {"iat", "exp", "jti"};
    assert WfFields(Empty);
    assert WfFields(f1);
    assert WfFields(f2);
    assert WfFields(f3);
    assert WfFields(Field("aud", Str(CLIENT_ID), f3));
  }

  /** Every token decodes to the registered claims overridden by the payload, whatever the payload. */
  lemma TokenDecodes(payload: Fields, iat: int, now: int, jti: string)
    requires WfFields(payload)
    ensures Payload(BEARER + MakeJwt(payload, iat, now, jti)) == Some(Obj(Claims(payload, iat, now, jti)))
    ensures DecodeIdToken(BEARER + MakeJwt(payload, iat, now, jti)) == Obj(Claims(payload, iat, now, jti))
  {
    var claims := Obj(Claims(payload, iat, now, jti));
    RegisteredIsWf(iat, now, jti);
    WfMerge(Registered(iat, now, jti), payload);
    PartDecodes(claims);
    ThreeParts(HeaderPart(), claims, SignaturePart());
    var header := BEARER + MakeJwt(payload, iat, now, jti);
    assert header[|BEARER|..] == MakeJwt(payload, iat, now, jti);
  }

  /** The claims of a token: the payload's own value of a key first, the registered one otherwise. */
  lemma ClaimsOverride(payload: Fields, iat: int, now: int, jti: string, key: string)
    requires WfFields(payload)
    ensures Get(Claims(payload, iat, now, jti), key) ==
      if key in Keys(payload) then Get(payload, key) else Get(Registered(iat, now, jti), key)
  {
    MergeGet(Registered(iat, now, jti), payload, key);
  }

  /** What a token says besides its payload: who issued it for whom, when, until when, and under which identifier. */
  lemma RegisteredSays(payload: Fields, iat: int, now: int, jti: string)
    requires WfFields(payload)
    ensures var c := Claims(payload, iat, now, jti);
      && ("iss" !in Keys(payload) ==> Get(c, "iss") == Some(Str("http://mock-oidc:9000")))
      && ("aud" !in Keys(payload) ==> Get(c, "aud") == Some(Str("ztlab-client")))
      && ("iat" !in Keys(payload) ==> Get(c, "iat") == Some(Int(iat)))
      && ("exp" !in Keys(payload) ==> Get(c, "exp") == Some(Int(now + 3600)))
      && ("jti" !in Keys(payload) ==> Get(c, "jti") == Some(Str(jti)))
      && Keys(c) == {"iss", "aud", "iat", "exp", "jti"} + Keys(payload)
  {
    ClaimsOverride(payload, iat, now, jti, "iss");
    ClaimsOverride(payload, iat, now, jti, "aud");
    ClaimsOverride(payload, iat, now, jti, "iat");
    ClaimsOverride(payload, iat, now, jti, "exp");
    ClaimsOverride(payload, iat, now, jti, "jti");
    RegisteredHas(iat, now, jti);
  }

  lemma RegisteredHas(iat: int, now: int, jti: string)
    ensures var r := Registered(iat, now, jti);
      && Get(r, "iss") == Some(Str("http://mock-oidc:9000")) && Get(r, "aud") == Some(Str("ztlab-client"))
      && Get(r, "iat") == Some(Int(iat)) && Get(r, "exp") == Some(Int(now + 3600)) && Get(r, "jti") == Some(Str(jti))
      && Keys(r) == {"iss", "aud", "iat", "exp", "jti"}
  {
    var f1 := Field("jti", Str(jti), Empty);
    var f2 := Field("exp", Int(now + 3600), f1);
    var f3 := Field("iat", Int(iat), f2);
    var f4 := Field("aud", Str(CLIENT_ID), f3);
    assert Keys(f1) == {"jti"} && Keys(f2) == {"exp", "jti"} && Keys(f3) == {"iat", "exp", "jti"};
    assert Keys(f4) == {"aud", "iat", "exp", "jti"};
    assert Get(f2, "jti") == Get(f1, "jti") == Some(Str(jti));
    assert Get(f3, "jti") == Get(f2, "jti") && Get(f3, "exp") == Get(f2, "exp");
    assert Get(f4, "jti") == Get(f3, "jti") && Get(f4, "exp") == Get(f3, "exp") && Get(f4, "iat") == Get(f3, "iat");
  }

  /** The three parts of a token, decoded: the kind of token, the claims, and a signature that signs nothing. */
  lemma TokenParts(payload: Fields, iat: int, now: int, jti: string)
    requires WfFields(payload)
    ensures var parts := Split(MakeJwt(payload, iat, now, jti), '.');
      && |parts| == 3 && DecodePart(parts[1]) == Some(Obj(Claims(payload, iat, now, jti)))
      && DecodePart(parts[0]) == Some(Obj(Field("alg", Str("HS256"), Field("typ", Str("JWT"), Empty))))
      && DecodePart(parts[2]) == Some(Obj(Field("sig", Str("mock"), Empty)))
  {
    var claims := Obj(Claims(payload, iat, now, jti));
    assert Wf(claims) by {
      RegisteredIsWf(iat, now, jti);
      WfMerge(Registered(iat, now, jti), payload);
    }
    ThreeParts(HeaderPart(), claims, SignaturePart());
    SmallPartsAreWf();
    PartDecodes(HeaderPart());
    PartDecodes(claims);
    PartDecodes(SignaturePart());
  }

  lemma ThreeParts(a: Json, b: Json, c: Json)
    ensures Split(Join([B64Encode(a), B64Encode(b), B64Encode(c)], '.'), '.') == [B64Encode(a), B64Encode(b), B64Encode(c)]
  {
    PartIsUrlSafe(a);
    PartIsUrlSafe(b);
    PartIsUrlSafe(c);
    SplitJoin([B64Encode(a), B64Encode(b), B64Encode(c)], '.');
  }

  lemma SmallPartsAreWf()
    ensures Wf(HeaderPart()) && Wf(SignaturePart())
  {
    assert WfFields(Empty);
    assert Keys(Field("typ", Str("JWT"), Empty)) == {"typ"} && WfFields(Field("typ", Str("JWT"), Empty));
    assert WfFields(Field("sig", Str("mock"), Empty));
  }

  /** A header that is no bearer token of three parts, or whose second part is no JSON document, gives no claims. */
  lemma OtherHeaders(header: string)
    ensures !("Bearer " <= header) ==> Payload(header) == None && DecodeIdToken(header) == Obj(Empty)
    ensures "Bearer " <= header && |Split(header[7..], '.')| != 3 ==>
      Payload(header) == None && DecodeIdToken(header) == Obj(Empty)
    ensures "Bearer " <= header && |Split(header[7..], '.')| == 3 ==>
      Payload(header) == DecodePart(Split(header[7..], '.')[1])
    ensures Payload(header) == None ==> DecodeIdToken(header) == Obj(Empty)
  {}

  // ---- the user endpoint ----

  /** A user of the mock provider: the name of the kind of user, and what the endpoint tells about it */
  datatype Account = Account(kind: string, info: Fields)

  /** `accounts.get(kind, accounts["admin"])` */
  function Choose(accounts: seq<Account>, kind: string): Option<Fields> {
    if Find(accounts, kind).Some? then Find(accounts, kind) else Find(accounts, "admin")
  }

  function Find(accounts: seq<Account>, kind: string): Option<Fields> {
    if accounts == [] then None
    else if accounts[0].kind == kind then Some(accounts[0].info) else Find(accounts[1..], kind)
  }

  predicate FirstOfKind(accounts: seq<Account>, kind: string, i: nat)
    requires i < |accounts|
  {
    accounts[i].kind == kind && forall j :: 0 <= j < i ==> accounts[j].kind != kind
  }

  lemma {:induction false} FindMeans(accounts: seq<Account>, kind: string)
    ensures forall i: nat :: i < |accounts| && FirstOfKind(accounts, kind, i) ==>
      Find(accounts, kind) == Some(accounts[i].info)
    ensures (forall j :: 0 <= j < |accounts| ==> accounts[j].kind != kind) <==> Find(accounts, kind).None?
  {
    if accounts != [] {
      FindMeans(accounts[1..], kind);
      forall i: nat | i < |accounts| && FirstOfKind(accounts, kind, i)
        ensures Find(accounts, kind) == Some(accounts[i].info)
      {
        if i > 0 {
          assert accounts[0].kind != kind;
          assert FirstOfKind(accounts[1..], kind, i - 1);
        }
      }
    }
  }

  /** Tokens are issued for the account of the kind that was asked for, and for the administrator's if there is none. */
  lemma ChooseMeans(accounts: seq<Account>, kind: string)
    ensures forall i: nat :: i < |accounts| && FirstOfKind(accounts, kind, i) ==>
      Choose(accounts, kind) == Some(accounts[i].info)
    ensures (forall j :: 0 <= j < |accounts| ==> accounts[j].kind != kind) ==>
      Choose(accounts, kind) == Find(accounts, "admin")
  {
    FindMeans(accounts, kind);
  }

  function Subject(info: Fields): Json { GetOr(info, "sub", Str("")) }

  function AccessClaims(sub: Json): Fields { Field("sub", sub, Field("scope", Str("openid profile email"), Empty)) }

  /** The subject is the value at "sub", and the access token tells it together with the scope. */
  lemma SubjectSays(info: Fields)
    ensures Subject(info) == if "sub" in Keys(info) then Get(info, "sub").value else Str("")
    ensures var c := AccessClaims(Subject(info));
      && Keys(c) == {"sub", "scope"} && Get(c, "sub") == Some(Subject(info))
      && Get(c, "scope") == Some(Str("openid profile email"))
  {
    var scope := Field("scope", Str("openid profile email"), Empty);
    assert Keys(scope) == {"scope"} && Get(scope, "scope") == Some(scope.value);
  }

  function WithSubject(accounts: seq<Account>, sub: Json): Option<Fields> {
    if accounts == [] then None
    else if Subject(accounts[0].info) == sub then Some(accounts[0].info) else WithSubject(accounts[1..], sub)
  }

  /** `Broken` stands for an exception that nothing catches. */
  datatype Info = Denied | Broken | Known(info: Fields)

  /** `userinfo`: a subject that no account has is taken for the administrator. */
  function Userinfo(accounts: seq<Account>, header: string): Info {
    match Payload(header)
    case None => Denied
    case Some(Obj(f)) =>
      var found := WithSubject(accounts, Subject(f));
      if found.Some? then Known(found.value)
      else if Find(accounts, "admin").Some? then Known(Find(accounts, "admin").value) else Broken
    case Some(_) => Broken
  }

  predicate DistinctSubjects(accounts: seq<Account>) {
    forall i, j :: 0 <= i < j < |accounts| ==> Subject(accounts[i].info) != Subject(accounts[j].info)
  }

  lemma {:induction false} FoundBySubject(accounts: seq<Account>, kind: string)
    requires DistinctSubjects(accounts) && Find(accounts, kind).Some?
    ensures exists i :: 0 <= i < |accounts| && accounts[i].info == Find(accounts, kind).value
    ensures WithSubject(accounts, Subject(Find(accounts, kind).value)) == Find(accounts, kind)
  {
    if accounts[0].kind != kind {
      FoundBySubject(accounts[1..], kind);
      var i :| 0 <= i < |accounts[1..]| && accounts[1..][i].info == Find(accounts[1..], kind).value;
      assert accounts[i + 1].info == Find(accounts, kind).value;
    } else {
      assert accounts[0].info == Find(accounts, kind).value;
    }
  }

  predicate IsFirst(accounts: seq<Account>, sub: Json, i: nat)
    requires i < |accounts|
  {
    Subject(accounts[i].info) == sub && forall j :: 0 <= j < i ==> Subject(accounts[j].info) != sub
  }

  lemma {:induction false} FirstWithSubject(accounts: seq<Account>, sub: Json, i: nat)
    requires i < |accounts| && IsFirst(accounts, sub, i)
    ensures WithSubject(accounts, sub) == Some(accounts[i].info)
  {
    if i > 0 { FirstWithSubject(accounts[1..], sub, i - 1); }
  }

  lemma {:induction false} NoneWithSubject(accounts: seq<Account>, sub: Json)
    requires forall i :: 0 <= i < |accounts| ==> Subject(accounts[i].info) != sub
    ensures WithSubject(accounts, sub) == None
  {
    if accounts != [] { NoneWithSubject(accounts[1..], sub); }
  }

  /** The answer to a token with claims: the first account of its subject, and without one the administrator's. */
  lemma UserinfoMeans(accounts: seq<Account>, header: string, f: Fields)
    requires Payload(header) == Some(Obj(f))
    ensures forall i :: 0 <= i < |accounts| && IsFirst(accounts, Subject(f), i) ==>
      Userinfo(accounts, header) == Known(accounts[i].info)
    ensures Find(accounts, "admin").Some? && (forall j :: 0 <= j < |accounts| ==> Subject(accounts[j].info) != Subject(f))
      ==> Userinfo(accounts, header) == Known(Find(accounts, "admin").value)
  {
    forall i | 0 <= i < |accounts| && IsFirst(accounts, Subject(f), i)
      ensures Userinfo(accounts, header) == Known(accounts[i].info)
    {
      FirstWithSubject(accounts, Subject(f), i);
    }
    if forall j :: 0 <= j < |accounts| ==> Subject(accounts[j].info) != Subject(f) {
      NoneWithSubject(accounts, Subject(f));
    }
  }

  /** The access token that is issued for a kind of user leads the user endpoint back to that user. */
  lemma AccessTokenNamesItsUser(accounts: seq<Account>, kind: string, iat: int, now: int, jti: string)
    requires DistinctSubjects(accounts) && Find(accounts, "admin").Some?
    requires Wf(Subject(Choose(accounts, kind).value))
    ensures var info := Choose(accounts, kind).value;
      Userinfo(accounts, BEARER + MakeJwt(AccessClaims(Subject(info)), iat, now, jti)) == Known(info)
  {
    var sub := Subject(Choose(accounts, kind).value);
    var scope := Field("scope", Str("openid profile email"), Empty);
    assert WfFields(Empty);
    assert Keys(scope) == {"scope"} && WfFields(scope);
    var claims := AccessClaims(sub);
    assert WfFields(claims);
    TokenDecodes(claims, iat, now, jti);
    ClaimsOverride(claims, iat, now, jti, "sub");
    assert Get(claims, "sub") == Some(sub);
    FoundBySubject(accounts, if Find(accounts, kind).Some? then kind else "admin");
  }
}
