/** IdpResponse: the immutable result of signing in with an identity provider, and the
    fixed-order encoding of it into an Android Parcel and back. */
module IdpResponses {
  import opened Wrappers

  /** A Java String reference: None stands for null. */
  type JString = Option<string>

  /** The five final fields of a response. Being a datatype value, a response never changes
      once built. */
  datatype IdpResponse = IdpResponse(
    providerId: JString,
    email: JString,
    token: JString,
    secret: JString,
    prevUid: JString)
  {
    /** The type of provider, e.g. the Google provider's id. */
    function GetProviderType(): (r: JString)
      ensures r == providerId
    {
      providerId
    }

    /** The email used to sign in. */
    function GetEmail(): (r: JString)
      ensures r == email
    {
      email
    }

    /** The token received from the identity provider. */
    function GetIdpToken(): (r: JString)
      ensures r == token
    {
      token
    }

    /** The token secret (Twitter only). */
    function GetIdpSecret(): (r: JString)
      ensures r == secret
    {
      secret
    }

    /** The previous user id, when an account-link conflict occurred. */
    function GetPrevUid(): (r: JString)
      ensures r == prevUid
    {
      prevUid
    }

    /** Parcelable's flags for special objects in the parcel: there are none. */
    function DescribeContents(): (r: int)
      ensures r == 0
    {
      0
    }
  }

  /** The three-argument constructor: no secret and no previous user id. */
  function WithToken(providerId: JString, email: JString, token: JString): (r: IdpResponse)
    ensures r.GetProviderType() == providerId && r.GetEmail() == email && r.GetIdpToken() == token
    ensures r.GetIdpSecret().None? && r.GetPrevUid().None?
  {
    IdpResponse(providerId, email, token, None, None)
  }

  /** The two-argument constructor: no token, no secret and no previous user id. */
  function WithEmail(providerId: JString, email: JString): (r: IdpResponse)
    ensures r.GetProviderType() == providerId && r.GetEmail() == email
    ensures r.GetIdpToken().None? && r.GetIdpSecret().None? && r.GetPrevUid().None?
  {
    WithToken(providerId, email, None)
  }

  /** The copy constructor: everything of `response` but the previous user id, which is `prevUid`. */
  function WithPrevUid(response: IdpResponse, prevUid: JString): (r: IdpResponse)
    ensures r.GetProviderType() == response.GetProviderType() && r.GetEmail() == response.GetEmail()
    ensures r.GetIdpToken() == response.GetIdpToken() && r.GetIdpSecret() == response.GetIdpSecret()
    ensures r.GetPrevUid() == prevUid
    ensures prevUid == response.GetPrevUid() ==> r == response
  {
    IdpResponse(response.GetProviderType(), response.GetEmail(), response.GetIdpToken(),
                response.GetIdpSecret(), prevUid)
  }

  /** Each getter gives back exactly what was passed to the five-argument constructor. */
  lemma GettersReturnConstructorArguments(providerId: JString, email: JString, token: JString,
                                          secret: JString, prevUid: JString)
    ensures var r := IdpResponse(providerId, email, token, secret, prevUid);
      r.GetProviderType() == providerId && r.GetEmail() == email && r.GetIdpToken() == token &&
      r.GetIdpSecret() == secret && r.GetPrevUid() == prevUid
  {
  }

  /** The part of an Android Parcel that holds strings: what was written, and the position
      the next read starts from. */
  datatype Parcel = Parcel(data: seq<JString>, position: nat)

  /** Parcel.writeString: appends one (possibly null) string. */
  function WriteString(dest: seq<JString>, s: JString): (out: seq<JString>)
    ensures |out| == |dest| + 1 && out[..|dest|] == dest && out[|dest|] == s
  {
    dest + [s]
  }

  /** Parcel.readString: the string at the read position, which then moves on by one; past the
      end of the data it reads null and stays where it is. */
  function ReadString(p: Parcel): (r: (JString, Parcel))
    ensures r.1.data == p.data
    ensures p.position < |p.data| ==> r.0 == p.data[p.position] && r.1.position == p.position + 1
    ensures |p.data| <= p.position ==> r.0.None? && r.1.position == p.position
  {
    if p.position < |p.data| then (p.data[p.position], p.(position := p.position + 1))
    else (None, p)
  }

  /** writeToParcel: the five fields, in the order providerId, email, token, secret, prevUid.
      The flags are not used. */
  function WriteToParcel(r: IdpResponse, dest: seq<JString>, flags: int): (out: seq<JString>)
    ensures |out| == |dest| + 5 && out[..|dest|] == dest
    ensures out[|dest|..] == [r.GetProviderType(), r.GetEmail(), r.GetIdpToken(), r.GetIdpSecret(), r.GetPrevUid()]
  {
    var out := WriteString(WriteString(WriteString(WriteString(WriteString(
      dest, r.GetProviderType()), r.GetEmail()), r.GetIdpToken()), r.GetIdpSecret()), r.GetPrevUid());
    assert out[|dest|..] == [out[|dest|], out[|dest| + 1], out[|dest| + 2], out[|dest| + 3], out[|dest| + 4]];
    out
  }

  /** CREATOR.createFromParcel: five reads, in argument order, into the five-argument
      constructor. Also returns the parcel with its read position moved on. */
  function CreateFromParcel(p: Parcel): (r: (IdpResponse, Parcel))
    ensures r.1.data == p.data && p.position <= r.1.position <= p.position + 5
    ensures p.position + 5 <= |p.data| ==> r.1.position == p.position + 5
    ensures |p.data| <= p.position ==> r.0 == IdpResponse(None, None, None, None, None)
  {
    var (providerId, p1) := ReadString(p);
    var (email, p2) := ReadString(p1);
    var (token, p3) := ReadString(p2);
    var (secret, p4) := ReadString(p3);
    var (prevUid, p5) := ReadString(p4);
    (IdpResponse(providerId, email, token, secret, prevUid), p5)
  }

  /** Reading back what writeToParcel wrote, from where it started writing, gives a response
      equal to the original in all five fields, and leaves the read position just past it. */
  lemma ParcelRoundTrip(r: IdpResponse, dest: seq<JString>, flags: int)
    ensures var written := WriteToParcel(r, dest, flags);
      CreateFromParcel(Parcel(written, |dest|)) == (r, Parcel(written, |dest| + 5))
  {
  }

  /** The other direction: five strings read from a parcel and written again are the same five
      strings, so no two different five-entry windows decode to the same response. */
  lemma ParcelDecodeEncode(p: Parcel, flags: int)
    requires p.position + 5 <= |p.data|
    ensures WriteToParcel(CreateFromParcel(p).0, [], flags) == p.data[p.position..p.position + 5]
  {
  }
}
