/** The settings the qBittorrent integration owns, and the password text among them. */
module QbtSettings {
  import opened Common
  import opened Lines
  import opened IniSections

  type Bytes = seq<bv8>

  /** Base64 and PBKDF2, left abstract. */
  datatype Hashing = Hashing(encode: Bytes -> string, decode: string -> Option<Bytes>, derive: (string, Bytes) -> Bytes)

  predicate Base64Text(s: string) {
    forall c :: c in s ==> ('A' <= c <= 'Z') || ('a' <= c <= 'z') || ('0' <= c <= '9') || c in "+/="
  }

  const SALT_LENGTH: nat := 16
  const KEY_LENGTH: nat := 64

  /** Decoding undoes encoding, encodings use the base64 alphabet, and derived keys have the fixed length. */
  ghost predicate Sound(h: Hashing) {
    && (forall b :: h.decode(h.encode(b)) == Some(b))
    && (forall b :: Base64Text(h.encode(b)))
    && (forall p, salt :: |h.derive(p, salt)| == KEY_LENGTH)
  }

  const PREFIX: string := "@ByteArray("

  function Wrap(s: string): string {
    PREFIX + s + ")"
  }

  /** What is between the prefix and the closing parenthesis. */
  function Unwrap(s: string): Option<string> {
    if |s| > |PREFIX| && PREFIX <= s && s[|s| - 1] == ')' then Some(s[|PREFIX|..|s| - 1]) else None
  }

  lemma UnwrapWrap(s: string)
    ensures Unwrap(Wrap(s)) == Some(s)
  {
    assert Wrap(s)[|PREFIX|..|Wrap(s)| - 1] == s;
  }

  /** qbtPBKDF2Hash */
  function HashText(h: Hashing, password: string, salt: Bytes): string {
    Wrap(h.encode(salt) + ":" + h.encode(h.derive(password, salt)))
  }

  function ColonAt(s: string): (i: nat)
    ensures i <= |s| && (i < |s| ==> s[i] == ':') && forall j :: 0 <= j < i ==> s[j] != ':'
  {
    if s == "" || s[0] == ':' then 0 else 1 + ColonAt(s[1..])
  }

  /** QBittorrentPasswordMatchesHash: exactly two parts, sixteen bytes of salt, and the derived key. */
  predicate PasswordMatches(h: Hashing, password: string, encoded: string) {
    Unwrap(encoded).Some? && PartsMatch(h, password, Unwrap(encoded).value)
  }

  predicate PartsMatch(h: Hashing, password: string, parts: string) {
    var i := ColonAt(parts);
    && i < |parts| && ':' !in parts[i + 1..]
    && var salt, key := h.decode(parts[..i]), h.decode(parts[i + 1..]);
    && salt.Some? && |salt.value| == SALT_LENGTH
    && key.Some? && |key.value| == KEY_LENGTH
    && h.derive(password, salt.value) == key.value
  }

  lemma ColonFirst(a: string, b: string)
    requires ':' !in a
    ensures ColonAt(a + ":" + b) == |a|
    ensures (a + ":" + b)[..|a|] == a && (a + ":" + b)[|a| + 1..] == b
  {
    var s := a + ":" + b;
    assert s[|a|] == ':';
    forall j | 0 <= j < |a|
      ensures s[j] != ':'
    {
      assert a[j] in a;
    }
  }

  /** A password matches its own hash text. */
  lemma HashMatches(h: Hashing, password: string, salt: Bytes)
    requires Sound(h) && |salt| == SALT_LENGTH
    ensures PasswordMatches(h, password, HashText(h, password, salt))
  {
    var key := h.derive(password, salt);
    var a, b := h.encode(salt), h.encode(key);
    assert Base64Text(a) && Base64Text(b) && ':' !in a && ':' !in b;
    ColonFirst(a, b);
    UnwrapWrap(a + ":" + b);
    assert h.decode(a) == Some(salt) && h.decode(b) == Some(key) && |key| == KEY_LENGTH;
  }

  /** It survives a line of the settings file. */
  lemma HashOnLine(h: Hashing, password: string, salt: Bytes)
    requires Sound(h)
    ensures Trimmed(HashText(h, password, salt)) && OneLine(HashText(h, password, salt))
  {
    var a, b := h.encode(salt), h.encode(h.derive(password, salt));
    var text := HashText(h, password, salt);
    assert '\n' !in a && '\n' !in b;
    assert text[0] == '@' && text[|text| - 1] == ')';
  }

  // ---- Other values

  function QuoteChar(c: char): string {
    if c == '"' then "\\\"" else if c == '\\' then "\\\\"
    else if c == '\n' then "\\n" else if c == '\r' then "\\r" else [c]
  }

  function Escape(s: string): (r: string)
    ensures '\n' !in r
  {
    if s == "" then "" else QuoteChar(s[0]) + Escape(s[1..])
  }

  /** strconv.Quote, on the characters that could break a line or end the quotes. */
  function Quote(s: string): string {
    "\"" + Escape(s) + "\""
  }

  function Digits(n: nat): (r: string)
    ensures r != "" && forall c :: c in r ==> '0' <= c <= '9'
  {
    if n < 10 then [('0' as int + n) as char] else Digits(n / 10) + [('0' as int + n % 10) as char]
  }

  function AllowedHostnames(publicHostname: string): string {
    "localhost;127.0.0.1;sdbx-qbittorrent;sdbx-gluetun" + (if publicHostname == "" then "" else ";" + publicHostname)
  }

  const USERNAME: string := "WebUI\\Username"
  const PASSWORD: string := "WebUI\\Password_PBKDF2"
  const LOCAL_HOST_AUTH: string := "WebUI\\LocalHostAuth"
  const WHITELIST_ENABLED: string := "WebUI\\AuthSubnetWhitelistEnabled"
  const WHITELIST: string := "WebUI\\AuthSubnetWhitelist"
  const HOST_VALIDATION: string := "WebUI\\HostHeaderValidation"
  const SERVER_DOMAINS: string := "WebUI\\ServerDomains"
  const CSRF: string := "WebUI\\CSRFProtection"
  const CLICKJACKING: string := "WebUI\\ClickjackingProtection"
  const PORT: string := "Session\\Port"

  /** qbtSecurityPreferences */
  function SecurityPreferences(publicHostname: string, hash: string): Settings {
    map[
      USERNAME := "admin",
      PASSWORD := hash,
      LOCAL_HOST_AUTH := "true",
      WHITELIST_ENABLED := "false",
      WHITELIST := "",
      HOST_VALIDATION := "true",
      SERVER_DOMAINS := Quote(AllowedHostnames(publicHostname)),
      CSRF := "true",
      CLICKJACKING := "true"
    ]
  }

  function PortSettings(port: nat): Settings {
    map[PORT := Digits(port)]
  }

  lemma PortWellFormed(port: nat)
    ensures WellFormed(PortSettings(port))
  {
    var d := Digits(port);
    assert d[0] in d && d[|d| - 1] in d;
    assert '\n' !in d;
  }

  predicate PlainValue(v: string) {
    Trimmed(v) && OneLine(v)
  }

  lemma QuotePlain(s: string)
    ensures PlainValue(Quote(s))
  {
  }

  predicate PlainKey(k: string) {
    Addable(k) && Trimmed(k) && k[0] != '['
  }

  predicate NameChars(s: string) {
    forall i :: 0 <= i < |s| ==> ('A' <= s[i] <= 'Z') || ('a' <= s[i] <= 'z') || s[i] in "\\_0123456789"
  }

  lemma NamePlain(k: string)
    requires k != "" && NameChars(k)
    ensures PlainKey(k)
  {
  }

  // One key a lemma: each spells its characters out.

  lemma UsernameKey()
    ensures PlainKey(USERNAME)
  {
    NamePlain(USERNAME);
  }

  lemma PasswordKey()
    ensures PlainKey(PASSWORD)
  {
    NamePlain(PASSWORD);
  }

  lemma LocalHostAuthKey()
    ensures PlainKey(LOCAL_HOST_AUTH)
  {
    NamePlain(LOCAL_HOST_AUTH);
  }

  lemma WhitelistEnabledKey()
    ensures PlainKey(WHITELIST_ENABLED)
  {
    NamePlain(WHITELIST_ENABLED);
  }

  lemma WhitelistKey()
    ensures PlainKey(WHITELIST)
  {
    NamePlain(WHITELIST);
  }

  lemma HostValidationKey()
    ensures PlainKey(HOST_VALIDATION)
  {
    NamePlain(HOST_VALIDATION);
  }

  lemma ServerDomainsKey()
    ensures PlainKey(SERVER_DOMAINS)
  {
    NamePlain(SERVER_DOMAINS);
  }

  lemma CsrfKey()
    ensures PlainKey(CSRF)
  {
    NamePlain(CSRF);
  }

  lemma ClickjackingKey()
    ensures PlainKey(CLICKJACKING)
  {
    NamePlain(CLICKJACKING);
  }

  lemma PreferencesWellFormed(publicHostname: string, hash: string)
    requires PlainValue(hash)
    ensures WellFormed(SecurityPreferences(publicHostname, hash))
  {
    var want := SecurityPreferences(publicHostname, hash);
    UsernameKey();
    PasswordKey();
    LocalHostAuthKey();
    WhitelistEnabledKey();
    WhitelistKey();
    HostValidationKey();
    ServerDomainsKey();
    CsrfKey();
    ClickjackingKey();
    QuotePlain(AllowedHostnames(publicHostname));
    forall k | k in want
      ensures PlainKey(k) && PlainValue(want[k])
    {
    }
  }
}
