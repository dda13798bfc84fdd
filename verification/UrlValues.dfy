/**
  Values of service URLs (common/url.go): what a URL holds, how it flattens to a
  string map, and how its parameters are read. Parameter lists are the values of
  Go's url.Values; `Get` reads the first of a list.
*/
module UrlValues {
  import opened Options
  import opened ServiceKeys

  type Values = map<string, seq<string>>

  /** An attribute is an arbitrary Go value; only its identity matters here. */
  type Attribute = int

  datatype UrlValue = UrlValue(
    protocol: string, location: string, ip: string, port: string,
    primitiveURL: string, primitiveTS: string,
    path: string, username: string, password: string,
    methods: seq<string>, params: Values, attributes: map<string, Attribute>,
    sub: Option<UrlValue>)

  const PROTOCOL_KEY := "protocol"
  const USERNAME_KEY := "username"
  const PASSWORD_KEY := "password"
  const HOST_KEY := "host"
  const PORT_KEY := "port"
  const PATH_KEY := "path"
  const INTERFACE_KEY := "interface"
  const GROUP_KEY := "group"
  const VERSION_KEY := "version"
  const TIMESTAMP_KEY := "timestamp"
  const REMOTE_TIMESTAMP_KEY := "remote.timestamp"

  // ------------------------------------------------------- reading parameters

  /** url.Values.Get: the first value, or "" when there is none. */
  function Get(params: Values, key: string): string {
    if key in params && params[key] != [] then params[key][0] else ""
  }

  /** `GetParam`: like `Get`, an empty value giving way to the default. */
  function GetParam(params: Values, key: string, d: string): string {
    if Get(params, key) == "" then d else Get(params, key)
  }

  /** The parameter key that configures `key` for one method. */
  function MethodKey(name: string, key: string): string {
    "methods." + name + "." + key
  }

  function TrimSlash(path: string): string {
    if path != "" && path[0] == PATH_SEPARATOR then path[1..] else path
  }

  /** The service key of a URL. */
  function ServiceKeyOf(u: UrlValue): string {
    ServiceKey(GetParam(u.params, INTERFACE_KEY, TrimSlash(u.path)),
               GetParam(u.params, GROUP_KEY, ""), GetParam(u.params, VERSION_KEY, ""))
  }

  /** The key comes from the parameters interface, group and version; the path stands in for the interface. */
  lemma ServiceKeyOfUrl(u: UrlValue)
    ensures ServiceKeyOf(u) ==
            ServiceKey(if Get(u.params, "interface") != "" then Get(u.params, "interface")
                       else if "/" <= u.path then u.path[1..] else u.path,
                       Get(u.params, "group"), Get(u.params, "version"))
  {
    assert "/" <= u.path <==> u.path != "" && u.path[0] == '/';
  }

  // ----------------------------------------------------------------- location

  /** `parseLocation`: host, and the text between the first and second ':'. */
  function ParseLocation(location: string): (string, string) {
    var colon := IndexOf(location, ':');
    if colon == -1 then (location, "0")
    else
      var rest := location[colon + 1..];
      var next := IndexOf(rest, ':');
      (location[..colon], if next == -1 then rest else rest[..next])
  }

  /** strings.Split. */
  function Split(s: string, c: char): seq<string>
    decreases |s|
  {
    var i := IndexOf(s, c);
    if i == -1 then [s] else [s[..i]] + Split(s[i + 1..], c)
  }

  /** Parts joined by a separator. */
  function Join(parts: seq<string>, c: char): string
    requires parts != []
  {
    if |parts| == 1 then parts[0] else parts[0] + [c] + Join(parts[1..], c)
  }

  lemma JoinCons(part: string, parts: seq<string>, c: char)
    requires parts != []
    ensures Join([part] + parts, c) == part + [c] + Join(parts, c)
  {
    assert ([part] + parts)[1..] == parts;
  }

  lemma SplitStep(s: string, c: char, i: int)
    requires i == IndexOf(s, c) && i != -1
    ensures Split(s, c) == [s[..i]] + Split(s[i + 1..], c)
  {
  }

  lemma CutAt(s: string, i: int)
    requires 0 <= i < |s|
    ensures s == s[..i] + [s[i]] + s[i + 1..]
  {
  }

  /** A split loses nothing but separators. */
  lemma {:induction false} SplitJoins(s: string, c: char)
    ensures Split(s, c) != [] && Join(Split(s, c), c) == s
    decreases |s|
  {
    var i := IndexOf(s, c);
    if i != -1 {
      var first, rest := s[..i], s[i + 1..];
      SplitJoins(rest, c);
      SplitStep(s, c, i);
      JoinCons(first, Split(rest, c), c);
      CutAt(s, i);
    }
  }

  /** And it leaves none. */
  lemma {:induction false} SplitParts(s: string, c: char, k: int)
    requires 0 <= k < |Split(s, c)|
    ensures c !in Split(s, c)[k]
    decreases |s|
  {
    var i := IndexOf(s, c);
    if i != -1 {
      SplitStep(s, c, i);
      if k > 0 {
        SplitParts(s[i + 1..], c, k - 1);
      }
    }
  }

  /** The pair the source promises: the first two fields of a split at ':'. */
  lemma ParseLocationSplits(location: string)
    ensures var parts := Split(location, ':');
            ParseLocation(location) == (parts[0], if |parts| == 1 then "0" else parts[1])
  {
    var i := IndexOf(location, ':');
    if i != -1 {
      var rest := Split(location[i + 1..], ':');
      assert Split(location, ':')[1] == rest[0];
    }
  }

  // --------------------------------------------------------------- flattening

  /** Every parameter has a value; reading the first one of an empty list panics. */
  predicate HasValues(params: Values) {
    forall k <- params :: params[k] != []
  }

  function FieldEntry(key: string, value: string): map<string, string> {
    if value == "" then map[] else map[key := value]
  }

  function LocationEntries(location: string): map<string, string> {
    if location == "" then map[]
    else map[HOST_KEY := ParseLocation(location).0, PORT_KEY := ParseLocation(location).1]
  }

  /** `ToMap`: first values of the parameters, overridden by the non-empty fields. */
  function ToMap(u: UrlValue): map<string, string>
    requires HasValues(u.params)
  {
    (map k | k in u.params :: u.params[k][0])
    + FieldEntry(PROTOCOL_KEY, u.protocol)
    + FieldEntry(USERNAME_KEY, u.username)
    + FieldEntry(PASSWORD_KEY, u.password)
    + LocationEntries(u.location)
    + FieldEntry(PATH_KEY, u.path)
  }
}
