/** The forms of credentials field by field: what is read for each entry of an inbound, what is written for a stored
    credential, and what a new client looks like. */
module CredentialForms {
  import opened Credentials
  import opened Options
  import opened Text

  /** The first of these that is set. */
  function Preferred(texts: seq<string>): string {
    if texts == [] then "" else if texts[0] != "" then texts[0] else Preferred(texts[1..])
  }

  lemma PreferredOfTwo(a: string, b: string)
    ensures Preferred([a, b]) == FirstNonEmpty(a, b)
  {
    assert [a, b][1..] == [b] && [b][1..] == [];
    assert Preferred([b]) == if b != "" then b else Preferred([]);
  }

  lemma PreferredOfThree(a: string, b: string, c: string)
    ensures Preferred([a, b, c]) == FirstNonEmpty(a, FirstNonEmpty(b, c))
  {
    assert [a, b, c][1..] == [b, c];
    PreferredOfTwo(b, c);
  }

  // ----- reading -----

  /** The inbound's protocol is this one, its settings are an object and its client list holds nothing but objects. */
  predicate Readable(ib: Inbound, protocol: string) {
    && ib.Inbound? && Lower(ib.protocol) == protocol && ib.settings.Settings?
    && forall c :: c in ClientsOf(ib.settings) ==> c.Item?
  }

  lemma ReadableParts(ib: Inbound, protocol: string, enc: map<string, string>)
    requires Readable(ib, protocol)
    requires protocol == "vmess" || protocol == "vless" || protocol == "trojan"
             || (protocol == "shadowsocks" && (ClientsOf(ib.settings) != [] || ib.settings.password == ""))
    ensures var items := ClientsOf(ib.settings);
            && !HasAlien(items)
            && Extract(ib, enc) == ReadAll(protocol, ib.settings, ClientEncryption(ib.settings, ib.tag, enc), items)
  {
    hide Lower, Trim, Read, ClientEncryption;
    var items := ClientsOf(ib.settings);
    forall i | 0 <= i < |items|
      ensures items[i].Item?
    {
      assert items[i] in items;
    }
  }

  lemma VMessEntries(ib: Inbound, enc: map<string, string>)
    requires Readable(ib, "vmess")
    ensures var items, read := ClientsOf(ib.settings), Extract(ib, enc);
            && |read| == |items|
            && forall i :: 0 <= i < |items| ==>
                 && items[i].Item?
                 && var c := items[i];
                    read[i] == Parsed(Preferred([c.email, c.id]), Stored("vmess", c.id, c.alterId, "", "", "", 0, "", "", ""))
  {
    hide Lower, Extract, ClientEncryption, Preferred;
    ReadableParts(ib, "vmess", enc);
    forall c: Item | c.Item?
      ensures Preferred([c.email, c.id]) == FirstNonEmpty(c.email, c.id)
    {
      PreferredOfTwo(c.email, c.id);
    }
  }

  /** The key handed to clients: the one configured for the trimmed tag, when the inbound decrypts and one is. */
  lemma VLESSEntries(ib: Inbound, enc: map<string, string>)
    requires Readable(ib, "vless")
    ensures var items, read, tag := ClientsOf(ib.settings), Extract(ib, enc), Trim(ib.tag);
            var encrypted := ib.settings.decryption != "" && ib.settings.decryption != "none" && tag in enc && enc[tag] != "";
            && |read| == |items|
            && forall i :: 0 <= i < |items| ==>
                 && items[i].Item?
                 && var c := items[i];
                    read[i] == Parsed(Preferred([c.email, c.id]),
                                      Stored("vless", c.id, 0, c.flow, c.email, if encrypted then enc[tag] else "none",
                                             ib.settings.testpre, "", "", ""))
  {
    hide Lower, Extract, Preferred, Trim;
    ReadableParts(ib, "vless", enc);
    forall c: Item | c.Item?
      ensures Preferred([c.email, c.id]) == FirstNonEmpty(c.email, c.id)
    {
      PreferredOfTwo(c.email, c.id);
    }
  }

  lemma TrojanEntries(ib: Inbound, enc: map<string, string>)
    requires Readable(ib, "trojan")
    ensures var items, read := ClientsOf(ib.settings), Extract(ib, enc);
            && |read| == |items|
            && forall i :: 0 <= i < |items| ==>
                 && items[i].Item?
                 && var c := items[i];
                    read[i] == Parsed(Preferred([c.email, c.password]),
                                      Stored("trojan", "", 0, "", c.email, "", 0, c.password, "", ""))
  {
    hide Lower, Extract, ClientEncryption, Preferred;
    ReadableParts(ib, "trojan", enc);
    forall c: Item | c.Item?
      ensures Preferred([c.email, c.password]) == FirstNonEmpty(c.email, c.password)
    {
      PreferredOfTwo(c.email, c.password);
    }
  }

  /** The method is the client's, else the inbound's, else AES-256-GCM; without a client list the inbound's own
      password is the only client. */
  lemma ShadowsocksEntries(ib: Inbound, enc: map<string, string>)
    requires Readable(ib, "shadowsocks")
    ensures var items, s, read := ClientsOf(ib.settings), ib.settings, Extract(ib, enc);
            if items == [] then
              read == if s.password == "" then [] else
                [Parsed(s.password, Stored("shadowsocks", "", 0, "", "", "", 0, s.password, Preferred([s.cipher, "aes-256-gcm"]), ""))]
            else
              && |read| == |items|
              && forall i :: 0 <= i < |items| ==>
                   && items[i].Item?
                   && var c := items[i];
                      read[i] == Parsed(Preferred([c.email, c.password]),
                                        Stored("shadowsocks", "", 0, "", c.email, "", 0, c.password,
                                               Preferred([c.cipher, s.cipher, "aes-256-gcm"]), ""))
  {
    hide Lower, ClientEncryption, Preferred;
    var s := ib.settings;
    if ClientsOf(s) == [] && s.password != "" {
      assert SingleUser(ib) && Extract(ib, enc) == [OwnUser(s)];
      PreferredOfTwo(s.cipher, "aes-256-gcm");
    } else {
      ReadableParts(ib, "shadowsocks", enc);
      hide Extract;
      forall c: Item | c.Item?
        ensures Preferred([c.email, c.password]) == FirstNonEmpty(c.email, c.password)
        ensures Preferred([c.cipher, s.cipher, "aes-256-gcm"]) == FirstNonEmpty(c.cipher, FirstNonEmpty(s.cipher, "aes-256-gcm"))
      {
        PreferredOfTwo(c.email, c.password);
        PreferredOfThree(c.cipher, s.cipher, "aes-256-gcm");
      }
    }
  }

  lemma SocksEntries(ib: Inbound, enc: map<string, string>)
    requires ib.Inbound? && ib.settings.Settings? && Lower(ib.protocol) == "socks"
    ensures var accounts, read := ib.settings.accounts, Extract(ib, enc);
            && |read| == |accounts|
            && forall i :: 0 <= i < |accounts| ==>
                 read[i] == Parsed(accounts[i].0, Stored("socks", "", 0, "", "", "", 0, accounts[i].1, "", accounts[i].0))
  {
    hide Lower;
    assert Extract(ib, enc) == ReadAccounts(ib.settings.accounts);
  }

  /** No clients are read for any other protocol, without settings, or when a list element is not an object. */
  lemma NoEntries(ib: Inbound, enc: map<string, string>)
    requires ib.Inbound?
    requires var p := Lower(ib.protocol);
             || ib.settings.NoSettings?
             || (p != "vmess" && p != "vless" && p != "trojan" && p != "shadowsocks" && p != "socks")
             || (p != "socks" && exists c :: c in ClientsOf(ib.settings) && c.Alien?)
    ensures Extract(ib, enc) == []
  {
    hide Lower, Trim;
    var items := ClientsOf(ib.settings);
    if c :| c in items && c.Alien? {
      var i :| 0 <= i < |items| && items[i] == c;
      assert HasAlien(items);
    }
  }

  // ----- writing -----

  /** What is appended to an inbound for a stored credential. */
  lemma WrittenForms(s: Stored, email: string)
    requires s.Stored?
    ensures var p, item := Lower(s.protocol), ToItem(s, email);
            && (p == "vless" ==> item == Some(Item(email, s.id, s.flow, 0, "", "", "")))
            && (p == "vmess" ==> item == Some(Item(email, s.id, "", s.alterId, "", "", "")))
            && (p == "trojan" ==> item == Some(Item(email, "", "", 0, s.password, "", "")))
            && (p == "shadowsocks" ==>
                  item == Some(Item(email, "", "", 0, s.password, Preferred([s.cipher, "2022-blake3-aes-256-gcm"]), "")))
            && (p != "vless" && p != "vmess" && p != "trojan" && p != "shadowsocks" ==> item == None)
  {
    hide Lower, Preferred;
    PreferredOfTwo(s.cipher, "2022-blake3-aes-256-gcm");
  }

  // ----- creating -----

  /** The first client of the list is an object. */
  predicate Led(settings: Settings) {
    ClientsOf(settings) != [] && ClientsOf(settings)[0].Item?
  }

  /** A new client takes the flow or alterId of the inbound's first client, and the method of the inbound or else of
      its first client; a method of the 2022 family comes with a generated key, any other with a password. */
  lemma NewClientForms(settings: Settings, username: string, fresh_: Fresh)
    ensures var flow := if Led(settings) then ClientsOf(settings)[0].flow else "";
            BuildClient("vless", settings, username, fresh_) == Some(Item(username, fresh_.uuid, flow, 0, "", "", ""))
    ensures var alterId := if Led(settings) then ClientsOf(settings)[0].alterId else 0;
            BuildClient("vmess", settings, username, fresh_) == Some(Item(username, fresh_.uuid, "", alterId, "", "", ""))
    ensures BuildClient("trojan", settings, username, fresh_) == Some(Item(username, "", "", 0, fresh_.password, "", ""))
    ensures var own := if settings.Settings? then settings.cipher else "";
            var first := if Led(settings) then ClientsOf(settings)[0].cipher else "";
            var cipher := Preferred([own, first, "2022-blake3-aes-256-gcm"]);
            BuildClient("shadowsocks", settings, username, fresh_) ==
            Some(Item(username, "", "", 0, if "2022" <= cipher then fresh_.key else fresh_.password, cipher, ""))
  {
    hide Preferred;
    var own := if settings.Settings? then settings.cipher else "";
    var first := if Led(settings) then ClientsOf(settings)[0].cipher else "";
    PreferredOfThree(own, first, "2022-blake3-aes-256-gcm");
  }

  lemma NothingNew(protocol: string, settings: Settings, username: string, fresh_: Fresh)
    ensures BuildClient(protocol, settings, username, fresh_).None? <==>
            protocol != "vless" && protocol != "vmess" && protocol != "trojan" && protocol != "shadowsocks"
  {
  }

  /** What is stored for a client just created. */
  lemma StoredForms(c: Item, encryption: string)
    requires c.Item?
    ensures ToStored("vless", c, encryption) == Stored("vless", c.id, 0, c.flow, "", Preferred([encryption, "none"]), 0, "", "", "")
    ensures ToStored("vmess", c, encryption) == Stored("vmess", c.id, 0, "", "", "", 0, "", "", "")
    ensures ToStored("trojan", c, encryption) == Stored("trojan", "", 0, "", "", "", 0, c.password, "", "")
    ensures ToStored("shadowsocks", c, encryption) == Stored("shadowsocks", "", 0, "", "", "", 0, c.password, c.cipher, "")
  {
    hide Preferred;
    PreferredOfTwo(encryption, "none");
  }

  // ----- what counts as the same credential -----

  /** Two credentials of client lists authenticate alike when protocol and the protocol's own fields agree. */
  lemma SameSecret(a: Stored, b: Stored)
    requires Writable(a) && Writable(b)
    ensures SecretOf(a) == SecretOf(b) <==>
            var p := Lower(a.protocol);
            && Lower(b.protocol) == p
            && (p == "vless" ==> a.id == b.id && a.flow == b.flow)
            && (p == "vmess" ==> a.id == b.id && a.alterId == b.alterId)
            && (p == "trojan" ==> a.password == b.password)
            && (p == "shadowsocks" ==> a.password == b.password && a.cipher == b.cipher)
  {
    hide Lower;
  }
}
