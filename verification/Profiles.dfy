/** S3 profiles, the nodes a user selects, and the binding of a node to one unchanged destination. */
module Profiles {
  import opened Wrappers
  import opened ObjectStore
  import Text

  datatype Kind = File | Folder | Other

  /** `path` is the key of a file or the prefix of a folder. */
  datatype Node = Node(profileId: string, bucket: string, kind: Kind, path: string, root: bool)

  datatype Profile = Profile(endpoint: string, bucket: string, prefix: string, pathStyle: bool)

  /** Where a profile points: what must not change while an operation runs. */
  datatype Identity = Identity(endpoint: string, bucket: string, rootPrefix: string, pathStyle: bool)

  /** `server` is the one that requests for the endpoint reach. */
  datatype Binding = Binding(node: Node, identity: Identity, server: string) {
    /** Where its objects are. */
    function Site(): Site { ObjectStore.Site(server, identity.bucket) }

    /** What the program compares. */
    function Address(): Address { AddressOf(identity.endpoint, identity.bucket) }
  }

  function RootPrefix(profile: Profile): string {
    if profile.prefix == "" then "" else Text.Trim(profile.prefix) + "/"
  }

  function Location(profile: Profile): Identity {
    Identity(profile.endpoint, profile.bucket, RootPrefix(profile), profile.pathStyle)
  }

  /** The folder of a profile: its prefix between no slashes and one, or everything. */
  lemma RootPrefixIs(profile: Profile)
    ensures RootPrefix(profile) == "" <==> profile.prefix == ""
    ensures profile.prefix != "" ==> RootPrefix(profile) == Text.Trim(profile.prefix) + "/"
  {
  }

  /** Two readings of a profile point to one place exactly when endpoint, bucket, addressing and folder are the same. */
  lemma SamePlaceExactly(p: Profile, q: Profile)
    ensures Location(p) == Location(q) <==>
              && p.endpoint == q.endpoint && p.bucket == q.bucket && p.pathStyle == q.pathStyle
              && (if p.prefix == "" || q.prefix == "" then p.prefix == q.prefix else Text.Trim(p.prefix) == Text.Trim(q.prefix))
  {
    var a, b := Text.Trim(p.prefix), Text.Trim(q.prefix);
    assert (a + "/")[..|a|] == a && (b + "/")[..|b|] == b;
  }

  function DropSlash(s: string): string {
    if s != "" && s[|s| - 1] == '/' then s[..|s| - 1] else s
  }

  /** A store as the program tells it from others: by the text of its endpoint. */
  datatype Address = Address(endpoint: string, bucket: string)

  /** Endpoints are compared as texts, up to one trailing slash. */
  function AddressOf(endpoint: string, bucket: string): Address {
    Address(DropSlash(endpoint), bucket)
  }

  function DropPort(e: string): string {
    if "https://" <= e && Text.EndsWith(e, ":443") then e[..|e| - 4]
    else if "http://" <= e && Text.EndsWith(e, ":80") then e[..|e| - 3]
    else e
  }

  /** The origin of a plain endpoint: scheme and host in lower case, without the scheme's own port (sections 6.2.2.1
      and 6.2.3 of RFC 3986).  Requests go to the origin, so spellings of one origin reach one server. */
  function Origin(endpoint: string): string { DropPort(Text.Lower(DropSlash(endpoint))) }

  lemma {:induction false} LowerOfSum(a: string, b: string)
    ensures Text.Lower(a + b) == Text.Lower(a) + Text.Lower(b)
  {
    if a == "" {
      assert a + b == b;
    } else {
      assert (a + b)[0] == a[0] && (a + b)[1..] == a[1..] + b;
      LowerOfSum(a[1..], b);
    }
  }

  lemma PortDropped(host: string)
    ensures DropPort("https://" + (host + ":443")) == "https://" + host
  {
    var e := "https://" + (host + ":443");
    assert "https://" <= e && e[|e| - 4..] == ":443" && e[..|e| - 4] == "https://" + host;
  }

  lemma NoPortKept(host: string)
    requires ':' !in host
    ensures DropPort("https://" + host) == "https://" + host
  {
    var e := "https://" + host;
    assert e[4] == 's' && "http://"[4] == ':';
    var t, port := e[|e| - 4..], ":443";
    assert if |host| >= 4 then t[0] == host[|host| - 4] else t[0] != ':' || t[1] == '/';
    assert port[0] == ':' && port[1] == '4';
  }

  lemma LoweredAddress(scheme: string, host: string)
    requires Text.Lower(scheme) == scheme && host != "" && host[|host| - 1] != '/'
    ensures Text.Lower(DropSlash(scheme + host)) == scheme + Text.Lower(host)
  {
    LowerOfSum(scheme, host);
  }

  lemma LoweredPort(host: string, port: string)
    requires Text.Lower(port) == port
    ensures Text.Lower(host + port) == Text.Lower(host) + port
  {
    LowerOfSum(host, port);
  }

  lemma LowerTexts()
    ensures Text.Lower("https://") == "https://" && Text.Lower(":443") == ":443"
  {
    var a, b := "https://", ":443";
    assert forall i :: 0 <= i < |a| ==> Text.Lower(a)[i] == a[i];
    assert forall i :: 0 <= i < |b| ==> Text.Lower(b)[i] == b[i];
  }

  lemma OriginBy(endpoint: string, lower: string, origin: string)
    requires Text.Lower(DropSlash(endpoint)) == lower && DropPort(lower) == origin
    ensures Origin(endpoint) == origin
  {
  }

  lemma TwoAddresses(scheme: string, host: string, port: string, bucket: string)
    requires port != "" && host != "" && host[|host| - 1] != '/' && port[|port| - 1] != '/'
    ensures AddressOf(scheme + host, bucket) != AddressOf(scheme + (host + port), bucket)
  {
    assert DropSlash(scheme + host) == scheme + host && DropSlash(scheme + (host + port)) == scheme + (host + port);
    assert |scheme + host| < |scheme + (host + port)|;
  }

  lemma PlainOrigin(host: string)
    requires host != "" && host[|host| - 1] != '/' && ':' !in Text.Lower(host)
    ensures Origin("https://" + host) == "https://" + Text.Lower(host)
  {
    LowerTexts();
    LoweredAddress("https://", host);
    NoPortKept(Text.Lower(host));
    OriginBy("https://" + host, "https://" + Text.Lower(host), "https://" + Text.Lower(host));
  }

  lemma PortOrigin(host: string)
    requires host != ""
    ensures Origin("https://" + (host + ":443")) == "https://" + Text.Lower(host)
  {
    LowerTexts();
    LoweredAddress("https://", host + ":443");
    LoweredPort(host, ":443");
    PortDropped(Text.Lower(host));
    OriginBy("https://" + (host + ":443"), "https://" + (Text.Lower(host) + ":443"), "https://" + Text.Lower(host));
  }

  /** Endpoints that differ in the case of the host, or in naming the port that the scheme implies, have one origin, and
      the program takes them for two stores. */
  lemma SpellingsOfOneOrigin(host: string, bucket: string)
    requires host != "" && host[|host| - 1] != '/' && ':' !in Text.Lower(host)
    ensures Origin("https://" + host) == Origin("https://" + (host + ":443")) == "https://" + Text.Lower(host)
    ensures AddressOf("https://" + host, bucket) != AddressOf("https://" + (host + ":443"), bucket)
  {
    PlainOrigin(host);
    PortOrigin(host);
    TwoAddresses("https://", host, ":443", bucket);
  }

  /** The node still lies in the profile's bucket and below its root prefix. */
  predicate Validates(node: Node, profile: Profile) {
    !node.kind.Other? && node.bucket == profile.bucket && RootPrefix(profile) <= node.path
  }

  /** The saved profile can change, or be unavailable, at any time. */
  method GetProfile(id: string) returns (r: Reply<Profile>) {
    r := *;
  }

  method Bind(node: Node, server: string -> string) returns (r: Reply<Binding>, ghost read: Reply<Profile>)
    ensures r.Ok? <==> read.Ok? && Validates(node, read.value)
    ensures r.Ok? ==> var there := r.value.identity;
              && there == Location(read.value) && there.endpoint == read.value.endpoint
              && there.bucket == read.value.bucket && there.pathStyle == read.value.pathStyle
    // Nothing is bound outside the profile's prefix, which is a folder.
    ensures r.Ok? && read.value.prefix != "" ==> Text.Trim(read.value.prefix) + "/" <= node.path
    ensures r.Ok? ==> r.value.server == server(r.value.identity.endpoint)
    ensures r.Ok? ==> r.value.node == node && !node.kind.Other? && node.bucket == r.value.identity.bucket
                      && r.value.identity.rootPrefix <= node.path
  {
    var profile := GetProfile(node.profileId);
    read := profile;
    if profile.Failed? || !Validates(node, profile.value) { return Failed, read; }
    var identity := Location(profile.value);
    return Ok(Binding(node, identity, server(identity.endpoint))), read;
  }

  /** The profile read again is still valid for the node and points to the place it was bound to. */
  predicate Unchanged(read: Reply<Profile>, b: Binding) {
    read.Ok? && Validates(b.node, read.value) && Location(read.value) == b.identity
  }

  /** Reads the profile again; it must still be valid and point to the place it was bound to. */
  method Current(b: Binding) returns (r: Reply<Profile>, ghost read: Reply<Profile>)
    ensures r.Ok? <==> Unchanged(read, b)
    ensures r.Ok? ==> r == read
    ensures r.Ok? ==> Validates(b.node, r.value) && Location(r.value) == b.identity
                      && AddressOf(r.value.endpoint, r.value.bucket) == b.Address()
  {
    r := GetProfile(b.node.profileId);
    read := r;
    if r.Ok? && (!Validates(b.node, r.value) || Location(r.value) != b.identity) { return Failed, read; }
  }
}
