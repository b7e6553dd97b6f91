/** Credentials on both sides of the sync: the entry of an Xray inbound's client list, and the stored form in
    the database; writing one, reading the other, and creating new ones. */
module Credentials {
  import opened Options
  import opened Text

  /** The stored credential, or text that does not parse as one. cipher is the Shadowsocks method, here and below. */
  datatype Stored =
    | Garbled
    | Stored(protocol: string, id: string, alterId: int, flow: string, email: string, encryption: string, testpre: nat,
             password: string, cipher: string, user: string)

  /** One element of a client list: an object, whose missing fields read as blank, or something else. */
  datatype Item =
    | Alien(raw: string)
    | Item(email: string, id: string, flow: string, alterId: int, password: string, cipher: string, rest: string)

  /** clients is None when the list is missing or null. rest stands for all other keys. */
  datatype Settings =
    | NoSettings
    | Settings(clients: Option<seq<Item>>, accounts: seq<(string, string)>, cipher: string, password: string,
               decryption: string, testpre: nat, rest: string)

  /** One element of a file's inbounds: an object, with port None when it cannot be read, or something else. */
  datatype Inbound =
    | Junk(raw: string)
    | Inbound(tag: string, protocol: string, port: Option<int>, settings: Settings, rest: string)

  /** A client as read from an inbound. */
  datatype Parsed = Parsed(identity: string, stored: Stored)

  const BLANK := Stored("", "", 0, "", "", "", 0, "", "", "")
  const WRITER_CIPHER := "2022-blake3-aes-256-gcm"
  const READER_CIPHER := "aes-256-gcm"

  predicate HasClients(protocol: string) {
    protocol == "vless" || protocol == "vmess" || protocol == "trojan" || protocol == "shadowsocks"
  }

  // ----- database to file -----

  predicate Writable(s: Stored) {
    s.Stored? && HasClients(Lower(s.protocol))
  }

  function ToItem(s: Stored, email: string): Option<Item> {
    if s.Garbled? then None
    else match Lower(s.protocol)
         case "vless" => Some(Item(email, s.id, s.flow, 0, "", "", ""))
         case "vmess" => Some(Item(email, s.id, "", s.alterId, "", "", ""))
         case "trojan" => Some(Item(email, "", "", 0, s.password, "", ""))
         case "shadowsocks" => Some(Item(email, "", "", 0, s.password, FirstNonEmpty(s.cipher, WRITER_CIPHER), ""))
         case _ => None
  }

  // ----- file to database -----

  function ClientsOf(settings: Settings): seq<Item> {
    if settings.Settings? && settings.clients.Some? then settings.clients.value else []
  }

  predicate HasAlien(items: seq<Item>) {
    exists i :: 0 <= i < |items| && items[i].Alien?
  }

  /** The public half of VLESS encryption, configured per inbound tag, when the inbound decrypts at all. */
  function ClientEncryption(settings: Settings, tag: string, enc: map<string, string>): string
    requires settings.Settings?
  {
    if settings.decryption != "" && settings.decryption != "none" && Trim(tag) in enc && enc[Trim(tag)] != "" then enc[Trim(tag)]
    else "none"
  }

  function Read(protocol: string, settings: Settings, encryption: string, c: Item): Parsed
    requires settings.Settings? && c.Item?
  {
    match protocol
    case "vmess" => Parsed(FirstNonEmpty(c.email, c.id), BLANK.(protocol := "vmess", id := c.id, alterId := c.alterId))
    case "vless" =>
      Parsed(FirstNonEmpty(c.email, c.id),
             BLANK.(protocol := "vless", id := c.id, flow := c.flow, email := c.email,
                    encryption := encryption, testpre := settings.testpre))
    case "trojan" =>
      Parsed(FirstNonEmpty(c.email, c.password), BLANK.(protocol := "trojan", password := c.password, email := c.email))
    case _ =>
      Parsed(FirstNonEmpty(c.email, c.password),
             BLANK.(protocol := "shadowsocks", password := c.password, email := c.email,
                    cipher := FirstNonEmpty(c.cipher, FirstNonEmpty(settings.cipher, READER_CIPHER))))
  }

  function ReadAll(protocol: string, settings: Settings, encryption: string, items: seq<Item>): (ps: seq<Parsed>)
    requires settings.Settings? && !HasAlien(items)
    ensures |ps| == |items|
    ensures forall i :: 0 <= i < |items| ==> ps[i] == Read(protocol, settings, encryption, items[i])
  {
    seq(|items|, i requires 0 <= i < |items| => Read(protocol, settings, encryption, items[i]))
  }

  function ReadAccounts(accounts: seq<(string, string)>): (ps: seq<Parsed>) {
    seq(|accounts|, i requires 0 <= i < |accounts| =>
      Parsed(accounts[i].0, BLANK.(protocol := "socks", user := accounts[i].0, password := accounts[i].1)))
  }

  /** A Shadowsocks inbound without a client list has one client, named by its password. */
  predicate SingleUser(ib: Inbound) {
    && ib.Inbound? && ib.settings.Settings? && Lower(ib.protocol) == "shadowsocks"
    && ClientsOf(ib.settings) == [] && ib.settings.password != ""
  }

  function OwnUser(settings: Settings): Parsed
    requires settings.Settings?
  {
    Parsed(settings.password,
           BLANK.(protocol := "shadowsocks", password := settings.password, cipher := FirstNonEmpty(settings.cipher, READER_CIPHER)))
  }

  /** The clients of an inbound; none at all when a list element is not an object. */
  function Extract(ib: Inbound, enc: map<string, string>): seq<Parsed>
    requires ib.Inbound?
  {
    var protocol := Lower(ib.protocol);
    if !ib.settings.Settings? then []
    else if protocol == "socks" then ReadAccounts(ib.settings.accounts)
    else if !HasClients(protocol) || HasAlien(ClientsOf(ib.settings)) then []
    else if SingleUser(ib) then [OwnUser(ib.settings)]
    else ReadAll(protocol, ib.settings, ClientEncryption(ib.settings, ib.tag, enc), ClientsOf(ib.settings))
  }

  method ExtractClients(ib: Inbound, enc: map<string, string>) returns (clients: seq<Parsed>)
    requires ib.Inbound?
    ensures clients == Extract(ib, enc)
  {
    hide Lower, Read;
    clients := [];
    if !ib.settings.Settings? {
      return;
    }
    var protocol, s := Lower(ib.protocol), ib.settings;
    if protocol == "socks" {
      for i := 0 to |s.accounts|
        invariant clients == ReadAccounts(s.accounts)[..i]
      {
        clients := clients + [Parsed(s.accounts[i].0,
                                     BLANK.(protocol := "socks", user := s.accounts[i].0, password := s.accounts[i].1))];
      }
      return;
    }
    var items := ClientsOf(s);
    if !HasClients(protocol) {
      return;
    }
    for i := 0 to |items|
      invariant forall k :: 0 <= k < i ==> !items[k].Alien?
    {
      if items[i].Alien? {
        return;
      }
    }
    if protocol == "shadowsocks" && items == [] {
      return if s.password != "" then [OwnUser(s)] else [];
    }
    var encryption := ClientEncryption(s, ib.tag, enc);
    for i := 0 to |items|
      invariant clients == ReadAll(protocol, s, encryption, items)[..i]
    {
      clients := clients + [Read(protocol, s, encryption, items[i])];
    }
  }

  // ----- there and back -----

  /** The part of a credential a client authenticates with. */
  datatype Secret = VLESS(id: string, flow: string) | VMess(id: string, alterId: int) | Trojan(password: string)
    | Shadowsocks(password: string, cipher: string) | Unusable

  function SecretOf(s: Stored): Secret {
    if s.Garbled? then Unusable
    else match Lower(s.protocol)
         case "vless" => VLESS(s.id, s.flow)
         case "vmess" => VMess(s.id, s.alterId)
         case "trojan" => Trojan(s.password)
         case "shadowsocks" => Shadowsocks(s.password, s.cipher)
         case _ => Unusable
  }

  lemma LowerFixed()
    ensures Lower("vless") == "vless" && Lower("vmess") == "vmess" && Lower("trojan") == "trojan"
    ensures Lower("shadowsocks") == "shadowsocks" && Lower("socks") == "socks"
  {
    LowerIsLower("vless");
    LowerIsLower("vmess");
    LowerIsLower("trojan");
    LowerIsLower("shadowsocks");
    LowerIsLower("socks");
  }

  lemma LowerIsLower(s: string)
    requires forall i :: 0 <= i < |s| ==> 'a' <= s[i] <= 'z'
    ensures Lower(s) == s
  {
  }

  /** Main result: a stored credential written to an inbound of its protocol and read back names the user it was
      written for and keeps its ID, flow, alterId, password and cipher, except exactly a Shadowsocks credential
      stored without a cipher, which comes back with one. */
  lemma RoundTrip(s: Stored, email: string, settings: Settings, encryption: string)
    requires Writable(s) && email != "" && settings.Settings?
    ensures ToItem(s, email).Some? && ToItem(s, email).value.Item?
    ensures var p := Read(Lower(s.protocol), settings, encryption, ToItem(s, email).value);
            && p.identity == email
            && Writable(p.stored) && Lower(p.stored.protocol) == Lower(s.protocol)
            && (SecretOf(p.stored) == SecretOf(s) <==> !(Lower(s.protocol) == "shadowsocks" && s.cipher == ""))
  {
    LowerFixed();
    hide Lower;
  }

  /** A credential that came from a file survives being written out again and re-read, in every case. */
  lemma FileCredentialsSurvive(protocol: string, settings: Settings, encryption: string, c: Item,
                               settings': Settings, encryption': string)
    requires HasClients(protocol) && settings.Settings? && settings'.Settings? && c.Item?
    requires Read(protocol, settings, encryption, c).identity != ""
    ensures var p := Read(protocol, settings, encryption, c);
            && ToItem(p.stored, p.identity).Some?
            && ToItem(p.stored, p.identity).value.Item?
            && var again := Read(protocol, settings', encryption', ToItem(p.stored, p.identity).value);
               again.identity == p.identity && SecretOf(again.stored) == SecretOf(p.stored)
  {
    LowerFixed();
    hide Lower;
    var p := Read(protocol, settings, encryption, c);
    RoundTrip(p.stored, p.identity, settings', encryption');
  }

  // ----- creation -----

  /** uuid, password and key come from the random generator. */
  datatype Fresh = Fresh(uuid: string, password: string, key: string)

  function First(settings: Settings): Item {
    var items := ClientsOf(settings);
    if items != [] && items[0].Item? then items[0] else Item("", "", "", 0, "", "", "")
  }

  function NewCipher(settings: Settings): string {
    if settings.Settings? && settings.cipher != "" then settings.cipher
    else FirstNonEmpty(First(settings).cipher, WRITER_CIPHER)
  }

  /** The new client takes flow, alterId and cipher from the inbound's settings and first client. */
  function BuildClient(protocol: string, settings: Settings, username: string, fresh_: Fresh): Option<Item> {
    match protocol
    case "vless" => Some(Item(username, fresh_.uuid, First(settings).flow, 0, "", "", ""))
    case "vmess" => Some(Item(username, fresh_.uuid, "", First(settings).alterId, "", "", ""))
    case "trojan" => Some(Item(username, "", "", 0, fresh_.password, "", ""))
    case "shadowsocks" =>
      var cipher := NewCipher(settings);
      Some(Item(username, "", "", 0, if HasPrefix(cipher, "2022") then fresh_.key else fresh_.password, cipher, ""))
    case _ => None
  }

  /** What creation stores for the client it built. The alterId is looked for as a floating-point number, which
      the freshly built client does not hold, so it is stored as 0. */
  function ToStored(protocol: string, c: Item, encryption: string): Stored
    requires c.Item?
  {
    match protocol
    case "vless" => BLANK.(protocol := "vless", id := c.id, flow := c.flow, encryption := FirstNonEmpty(encryption, "none"))
    case "vmess" => BLANK.(protocol := "vmess", id := c.id)
    case "trojan" => BLANK.(protocol := "trojan", password := c.password)
    case _ => BLANK.(protocol := "shadowsocks", password := c.password, cipher := c.cipher)
  }

  /** Creating a client stores what a later reading of the file would find, for every client except exactly a
      VMess one whose inbound's first client has a non-zero alterId. */
  lemma CreationAgreesWithTheFile(protocol: string, settings: Settings, username: string, fresh_: Fresh,
                                      enc: string, encryption: string)
    requires HasClients(protocol) && settings.Settings? && username != ""
    ensures BuildClient(protocol, settings, username, fresh_).Some? && BuildClient(protocol, settings, username, fresh_).value.Item?
    ensures var c := BuildClient(protocol, settings, username, fresh_).value;
            var p := Read(protocol, settings, encryption, c);
            && p.identity == username
            && (SecretOf(p.stored) == SecretOf(ToStored(protocol, c, enc)) <==>
                !(protocol == "vmess" && First(settings).alterId != 0))
  {
    LowerFixed();
    hide Lower;
  }
}
