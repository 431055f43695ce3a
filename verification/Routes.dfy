// Every operation of the client as a method and a path, and a router that
// recovers the operation and its IDs from them.
module Routes {
  import opened ByteStrings
  import opened Percent
  import opened Paths
  import opened Normalise

  datatype Verb = GET | POST | PUT | PATCH | DELETE

  datatype Collection =
    | Sites | Resources | Policies | Groups | Actors | Clients
    | EmailOTPAuthProviders | OIDCAuthProviders | GoogleAuthProviders | EntraAuthProviders | OktaAuthProviders
    | EntraDirectories | GoogleDirectories | OktaDirectories

  // The memberships of a group and the members of a device pool.
  datatype MemberList = Memberships | PoolMembers

  datatype Call =
    | List(c: Collection)
    | Create(c: Collection)
    | Get(c: Collection, id: Bytes)
    | Update(c: Collection, id: Bytes)
    | Delete(c: Collection, id: Bytes)
    | Disable(c: Collection, id: Bytes)
    | Enable(c: Collection, id: Bytes)
    | Verify(id: Bytes)
    | Unverify(id: Bytes)
    | ListGateways(site: Bytes)
    | ProvisionGateway(site: Bytes)
    | GetGateway(site: Bytes, id: Bytes)
    | UpdateGateway(site: Bytes, id: Bytes)
    | DeleteGateway(site: Bytes, id: Bytes)
    | RotateGatewayToken(site: Bytes, id: Bytes)
    | ListMembers(m: MemberList, parent: Bytes)
    | ReplaceMembers(m: MemberList, parent: Bytes)
    | PatchMembers(m: MemberList, parent: Bytes)

  // The operations the client has: read-only collections are listed and read,
  // client devices are never created, and only policies and actors are switched.
  predicate Offered(call: Call)
  {
    match call
    case Create(c) => c in {Sites, Resources, Policies, Groups, Actors}
    case Update(c, _) => c in {Sites, Resources, Policies, Groups, Actors, Clients}
    case Delete(c, _) => c in {Sites, Resources, Policies, Groups, Actors, Clients}
    case Disable(c, _) => c in {Policies, Actors}
    case Enable(c, _) => c in {Policies, Actors}
    case _ => true
  }

  // Disable and Enable are updates.
  function Canonical(call: Call): Call
  {
    match call
    case Disable(c, id) => Update(c, id)
    case Enable(c, id) => Update(c, id)
    case _ => call
  }

  function Name(c: Collection): Bytes
  {
    match c
    case Sites => "sites"
    case Resources => "resources"
    case Policies => "policies"
    case Groups => "groups"
    case Actors => "actors"
    case Clients => "clients"
    case EmailOTPAuthProviders => "email_otp_auth_providers"
    case OIDCAuthProviders => "oidc_auth_providers"
    case GoogleAuthProviders => "google_auth_providers"
    case EntraAuthProviders => "entra_auth_providers"
    case OktaAuthProviders => "okta_auth_providers"
    case EntraDirectories => "entra_directories"
    case GoogleDirectories => "google_directories"
    case OktaDirectories => "okta_directories"
  }

  function Parent(m: MemberList): Bytes
  {
    match m
    case Memberships => "groups"
    case PoolMembers => "resources"
  }

  function Child(m: MemberList): Bytes
  {
    match m
    case Memberships => "memberships"
    case PoolMembers => "pool_members"
  }

  function GatewayBase(site: Bytes, segments: seq<Bytes>): seq<Bytes>
  {
    ["sites", site, "gateways"] + segments
  }

  function VerbOf(call: Call): Verb
  {
    match call
    case Create(_) => POST
    case Update(_, _) => PATCH
    case Delete(_, _) => DELETE
    case Disable(_, _) => PATCH
    case Enable(_, _) => PATCH
    case Verify(_) => PUT
    case Unverify(_) => PUT
    case ProvisionGateway(_) => POST
    case UpdateGateway(_, _) => PATCH
    case DeleteGateway(_, _) => DELETE
    case RotateGatewayToken(_, _) => POST
    case ReplaceMembers(_, _) => PUT
    case PatchMembers(_, _) => PATCH
    case _ => GET
  }

  function Segments(call: Call): (r: seq<Bytes>)
    ensures r != []
  {
    match call
    case List(c) => [Name(c)]
    case Create(c) => [Name(c)]
    case Get(c, id) => [Name(c), id]
    case Update(c, id) => [Name(c), id]
    case Delete(c, id) => [Name(c), id]
    case Disable(c, id) => [Name(c), id]
    case Enable(c, id) => [Name(c), id]
    case Verify(id) => ["clients", id, "verify"]
    case Unverify(id) => ["clients", id, "unverify"]
    case ListGateways(site) => GatewayBase(site, [])
    case ProvisionGateway(site) => GatewayBase(site, [])
    case GetGateway(site, id) => GatewayBase(site, [id])
    case UpdateGateway(site, id) => GatewayBase(site, [id])
    case DeleteGateway(site, id) => GatewayBase(site, [id])
    case RotateGatewayToken(site, id) => GatewayBase(site, [id, "token", "rotate"])
    case ListMembers(m, parent) => [Parent(m), parent, Child(m)]
    case ReplaceMembers(m, parent) => [Parent(m), parent, Child(m)]
    case PatchMembers(m, parent) => [Parent(m), parent, Child(m)]
  }

  // The IDs a call checks, in the order it checks them.
  function IDs(call: Call): seq<Bytes>
  {
    match call
    case List(_) => []
    case Create(_) => []
    case Get(_, id) => [id]
    case Update(_, id) => [id]
    case Delete(_, id) => [id]
    case Disable(_, id) => [id]
    case Enable(_, id) => [id]
    case Verify(id) => [id]
    case Unverify(id) => [id]
    case ListGateways(site) => [site]
    case ProvisionGateway(site) => [site]
    case GetGateway(site, id) => [site, id]
    case UpdateGateway(site, id) => [site, id]
    case DeleteGateway(site, id) => [site, id]
    case RotateGatewayToken(site, id) => [site, id]
    case ListMembers(_, parent) => [parent]
    case ReplaceMembers(_, parent) => [parent]
    case PatchMembers(_, parent) => [parent]
  }

  // ----- The request a call makes -----

  datatype Request = Refused(error: IDError) | Sent(verb: Verb, path: Bytes)

  function FirstRejection(ids: seq<Bytes>): IDCheck
  {
    if ids == [] then Usable
    else if CheckID(ids[0]).Rejected? then CheckID(ids[0])
    else FirstRejection(ids[1..])
  }

  // List and Create name their collection as is; every other path is built.
  function PathOf(call: Call): Bytes
  {
    match call
    case List(c) => Name(c)
    case Create(c) => Name(c)
    case _ => BuiltPath(Segments(call))
  }

  function RequestFor(call: Call): Request
  {
    match FirstRejection(IDs(call))
    case Rejected(e) => Refused(e)
    case Usable => Sent(VerbOf(call), PathOf(call))
  }

  // ----- A router -----

  datatype Routed = NoRoute | To(call: Call)

  function UnescapeAll(parts: seq<Bytes>): seq<Bytes>
  {
    if parts == [] then [] else [Decode(false, parts[0])] + UnescapeAll(parts[1..])
  }

  datatype Named = Unknown | Known(c: Collection)

  function CollectionNamed(name: Bytes): Named
  {
    if name == "sites" then Known(Sites)
    else if name == "resources" then Known(Resources)
    else if name == "policies" then Known(Policies)
    else if name == "groups" then Known(Groups)
    else if name == "actors" then Known(Actors)
    else if name == "clients" then Known(Clients)
    else if name == "email_otp_auth_providers" then Known(EmailOTPAuthProviders)
    else if name == "oidc_auth_providers" then Known(OIDCAuthProviders)
    else if name == "google_auth_providers" then Known(GoogleAuthProviders)
    else if name == "entra_auth_providers" then Known(EntraAuthProviders)
    else if name == "okta_auth_providers" then Known(OktaAuthProviders)
    else if name == "entra_directories" then Known(EntraDirectories)
    else if name == "google_directories" then Known(GoogleDirectories)
    else if name == "okta_directories" then Known(OktaDirectories)
    else Unknown
  }

  function DispatchSegments(m: Verb, s: seq<Bytes>): Routed
  {
    match |s|
    case 1 =>
      (match CollectionNamed(s[0])
       case Unknown => NoRoute
       case Known(c) => if m.GET? then To(List(c)) else if m.POST? then To(Create(c)) else NoRoute)
    case 2 =>
      (match CollectionNamed(s[0])
       case Unknown => NoRoute
       case Known(c) =>
         (match m
          case GET => To(Get(c, s[1]))
          case PATCH => To(Update(c, s[1]))
          case DELETE => To(Delete(c, s[1]))
          case _ => NoRoute))
    case 3 =>
      if s[0] == "sites" && s[2] == "gateways" then
        if m.GET? then To(ListGateways(s[1])) else if m.POST? then To(ProvisionGateway(s[1])) else NoRoute
      else if s[0] == "clients" && m.PUT? then
        if s[2] == "verify" then To(Verify(s[1])) else if s[2] == "unverify" then To(Unverify(s[1])) else NoRoute
      else if s[0] == "groups" && s[2] == "memberships" then DispatchMembers(m, Memberships, s[1])
      else if s[0] == "resources" && s[2] == "pool_members" then DispatchMembers(m, PoolMembers, s[1])
      else NoRoute
    case 4 =>
      if s[0] == "sites" && s[2] == "gateways" then
        (match m
         case GET => To(GetGateway(s[1], s[3]))
         case PATCH => To(UpdateGateway(s[1], s[3]))
         case DELETE => To(DeleteGateway(s[1], s[3]))
         case _ => NoRoute)
      else NoRoute
    case 6 =>
      if s[0] == "sites" && s[2] == "gateways" && s[4] == "token" && s[5] == "rotate" && m.POST? then
        To(RotateGatewayToken(s[1], s[3]))
      else NoRoute
    case _ => NoRoute
  }

  function DispatchMembers(m: Verb, list: MemberList, parent: Bytes): Routed
  {
    match m
    case GET => To(ListMembers(list, parent))
    case PUT => To(ReplaceMembers(list, parent))
    case PATCH => To(PatchMembers(list, parent))
    case _ => NoRoute
  }

  function Dispatch(m: Verb, path: Bytes): Routed
  {
    DispatchSegments(m, UnescapeAll(Split(path, '/')))
  }

  // ----- Round trip -----

  lemma {:induction false} CollectionNames(c: Collection)
    ensures CollectionNamed(Name(c)) == Known(c)
  {}

  lemma {:induction false} DispatchCanonical(call: Call)
    requires Offered(call)
    ensures DispatchSegments(VerbOf(call), Segments(call)) == To(Canonical(call))
  {
    match call
    case List(c) => CollectionNames(c);
    case Create(c) => CollectionNames(c);
    case Get(c, _) => CollectionNames(c);
    case Update(c, _) => CollectionNames(c);
    case Delete(c, _) => CollectionNames(c);
    case Disable(c, _) => CollectionNames(c);
    case Enable(c, _) => CollectionNames(c);
    case _ =>
  }

  lemma {:induction false} UnescapeEscapeAll(segments: seq<Bytes>)
    ensures UnescapeAll(EscapeAll(segments)) == segments
  {
    if segments != [] {
      SegmentRoundTrip(segments[0]);
      UnescapeEscapeAll(segments[1..]);
    }
  }

  lemma {:induction false} EscapeUnreserved(s: Bytes)
    requires AllUnreserved(s)
    ensures Escape(Segment, s) == s
  {
    if s != [] {
      EscapeUnreserved(s[1..]);
    }
  }

  predicate IsProvider(c: Collection)
  {
    c in {EmailOTPAuthProviders, OIDCAuthProviders, GoogleAuthProviders, EntraAuthProviders, OktaAuthProviders}
  }

  predicate IsDirectory(c: Collection)
  {
    c in {EntraDirectories, GoogleDirectories, OktaDirectories}
  }

  predicate AllUnreserved(s: Bytes)
  {
    forall i :: 0 <= i < |s| ==> IsUnreserved(s[i])
  }

  lemma {:induction false} ProviderNameUnreserved(c: Collection)
    requires IsProvider(c)
    ensures AllUnreserved(Name(c))
  {
    assert AllUnreserved("email_otp_auth_providers");
    assert AllUnreserved("oidc_auth_providers");
    assert AllUnreserved("google_auth_providers");
    assert AllUnreserved("entra_auth_providers");
    assert AllUnreserved("okta_auth_providers");
  }

  lemma {:induction false} DirectoryNameUnreserved(c: Collection)
    requires IsDirectory(c)
    ensures AllUnreserved(Name(c))
  {
    assert AllUnreserved("entra_directories");
    assert AllUnreserved("google_directories");
    assert AllUnreserved("okta_directories");
  }

  lemma {:induction false} NameUnreserved(c: Collection)
    ensures AllUnreserved(Name(c))
  {
    if IsProvider(c) {
      ProviderNameUnreserved(c);
    } else if IsDirectory(c) {
      DirectoryNameUnreserved(c);
    } else {
      assert AllUnreserved("sites") && AllUnreserved("resources") && AllUnreserved("policies");
      assert AllUnreserved("groups") && AllUnreserved("actors") && AllUnreserved("clients");
    }
  }

  lemma {:induction false} NameAsPath(c: Collection)
    ensures BuiltPath([Name(c)]) == Name(c)
  {
    var name := Name(c);
    NameUnreserved(c);
    EscapeUnreserved(name);
    assert BuiltPath([name]) == Escape(Segment, name);
  }

  lemma {:induction false} PathOfIsBuilt(call: Call)
    ensures PathOf(call) == BuiltPath(Segments(call))
  {
    match call
    case List(c) => NameAsPath(c);
    case Create(c) => NameAsPath(c);
    case _ =>
  }

  // The router recovers the operation and every ID, whatever bytes the IDs hold.
  lemma {:induction false} RouteRoundTrip(call: Call)
    requires Offered(call)
    ensures Dispatch(VerbOf(call), PathOf(call)) == To(Canonical(call))
  {
    PathOfIsBuilt(call);
    SplitBuiltPath(Segments(call));
    UnescapeEscapeAll(Segments(call));
    DispatchCanonical(call);
  }

  // Two calls that share a method and a path are the same operation on the
  // same IDs, Disable and Enable counting as Update.
  lemma {:induction false} RoutesInjectiveExactly(a: Call, b: Call)
    requires Offered(a) && Offered(b)
    ensures VerbOf(a) == VerbOf(b) && PathOf(a) == PathOf(b) <==> Canonical(a) == Canonical(b)
  {
    RouteRoundTrip(a);
    RouteRoundTrip(b);
  }

  // A call is refused exactly when one of its IDs is, and then with the error of
  // the first that is.
  lemma {:induction false} FirstRejectionExactly(ids: seq<Bytes>)
    ensures FirstRejection(ids).Usable? <==> AllUsable(ids)
    ensures AllUsable(ids) <==> forall i :: 0 <= i < |ids| ==> ids[i] !in ["", ".", ".."]
    ensures forall i :: 0 <= i < |ids| && CheckID(ids[i]).Rejected? && AllUsable(ids[..i]) ==>
              FirstRejection(ids) == CheckID(ids[i])
  {
    if ids != [] {
      FirstRejectionExactly(ids[1..]);
      if AllUsable(ids) {
        assert AllUsable(ids[1..]);
      }
      if AllUsable(ids[1..]) && CheckID(ids[0]).Usable? {
        forall i | 0 <= i < |ids|
          ensures CheckID(ids[i]).Usable?
        {
          if i > 0 {
            assert ids[i] == ids[1..][i - 1];
          }
        }
      }
      forall i | 0 <= i < |ids| && CheckID(ids[i]).Rejected? && AllUsable(ids[..i])
        ensures FirstRejection(ids) == CheckID(ids[i])
      {
        if i > 0 {
          assert CheckID(ids[..i][0]).Usable?;
          assert ids[1..][i - 1] == ids[i] && ids[1..][..i - 1] == ids[..i][1..];
        }
      }
    }
  }

  lemma {:induction false} NameUsable(c: Collection)
    ensures CheckID(Name(c)).Usable?
  {
    assert |Name(c)| > 2;
  }

  lemma {:induction false} MemberSegmentsUsable(m: MemberList)
    ensures CheckID(Parent(m)).Usable? && CheckID(Child(m)).Usable?
  {
    assert |Parent(m)| > 2 && |Child(m)| > 2;
  }

  lemma {:induction false} GatewaySegmentsUsable(site: Bytes, segments: seq<Bytes>)
    requires CheckID(site).Usable? && AllUsable(segments)
    ensures AllUsable(GatewayBase(site, segments))
  {
    var s := GatewayBase(site, segments);
    assert |s[0]| > 2 && |s[2]| > 2;
    assert forall i :: 3 <= i < |s| ==> s[i] == segments[i - 3];
  }

  lemma {:induction false} SegmentsUsable(call: Call)
    requires AllUsable(IDs(call))
    ensures AllUsable(Segments(call))
  {
    var ids := IDs(call);
    assert |ids| > 0 ==> CheckID(ids[0]).Usable?;
    assert |ids| > 1 ==> CheckID(ids[1]).Usable?;
    match call
    case List(c) => NameUsable(c);
    case Create(c) => NameUsable(c);
    case Get(c, _) => NameUsable(c);
    case Update(c, _) => NameUsable(c);
    case Delete(c, _) => NameUsable(c);
    case Disable(c, _) => NameUsable(c);
    case Enable(c, _) => NameUsable(c);
    case Verify(_) => assert |"clients"| > 2 && |"verify"| > 2;
    case Unverify(_) => assert |"clients"| > 2 && |"unverify"| > 2;
    case ListGateways(site) => GatewaySegmentsUsable(site, []);
    case ProvisionGateway(site) => GatewaySegmentsUsable(site, []);
    case GetGateway(site, id) => GatewaySegmentsUsable(site, [id]);
    case UpdateGateway(site, id) => GatewaySegmentsUsable(site, [id]);
    case DeleteGateway(site, id) => GatewaySegmentsUsable(site, [id]);
    case RotateGatewayToken(site, id) =>
      assert |"token"| > 2 && |"rotate"| > 2;
      GatewaySegmentsUsable(site, [id, "token", "rotate"]);
    case ListMembers(m, _) => MemberSegmentsUsable(m);
    case ReplaceMembers(m, _) => MemberSegmentsUsable(m);
    case PatchMembers(m, _) => MemberSegmentsUsable(m);
  }

  // A call is sent exactly when all its IDs pass the check. What is sent then
  // survives normalisation under any base URL: behind the normalised base, a
  // router still finds the same operation and the same IDs.
  lemma {:induction false} SentCallsReachTheirRoute(base: URL, call: Call)
    requires Offered(call)
    ensures RequestFor(call).Sent? <==> AllUsable(IDs(call))
    ensures RequestFor(call).Sent? ==>
              var r := RequestFor(call);
              && ResolvePath(base, r.path).Resolved?
              && var wire := Normalised(EscapedPath(ResolvePath(base, r.path).url));
                 var front := Normalised(TrimSuffixSlash(EscapedPath(base)) + "/");
                 && front <= wire
                 && Dispatch(r.verb, wire[|front|..]) == To(Canonical(call))
  {
    FirstRejectionExactly(IDs(call));
    if RequestFor(call).Sent? {
      PathOfIsBuilt(call);
      SegmentsUsable(call);
      NormalisationImmunity(base, Segments(call));
      RouteRoundTrip(call);
    }
  }
}
