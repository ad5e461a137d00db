/**
  The login notifier of mailer.js: picking the client's public address out of a
  forwarded-for chain, resolving it to a location through a primary and a
  backup geolocation provider, and composing the alert e-mail.

  The providers' HTTP answers are inputs (what each would answer if asked);
  the notice records which address, if any, is actually looked up.
 */
module Mailer {
  import opened Js

  datatype Option<T> = None | Some(value: T)

  // ---------------------------------------------------------------------------
  // Public-IP selection (mailer.js:36-37)
  // ---------------------------------------------------------------------------

  /** The entry starts with one of the literal prefixes the notifier treats as private. */
  predicate LooksPrivate(ip: string) {
    StartsWith(ip, "10.") || StartsWith(ip, "172.") || StartsWith(ip, "192.168")
  }

  /**
    `ipRaw.split(',').map(ip => ip.trim())`: one entry per comma-separated
    piece, none with white space at either end.
   */
  function Candidates(ipRaw: string): (r: seq<string>)
    ensures |r| == |Split(ipRaw, ',')| >= 1
    ensures forall i :: 0 <= i < |r| ==> Trimmed(r[i])
  {
    var pieces := Split(ipRaw, ',');
    seq(|pieces|, i requires 0 <= i < |pieces| => Trim(pieces[i]))
  }

  /**
    `ips.find(ip => !LooksPrivate(ip))`, as a position: the first entry that does
    not look private, or None when every entry does.
   */
  function FirstPublic(ips: seq<string>): (r: Option<nat>)
    ensures r.Some? ==> r.value < |ips| && !LooksPrivate(ips[r.value])
    ensures r.Some? ==> forall j :: 0 <= j < r.value ==> LooksPrivate(ips[j])
    ensures r.None? <==> forall j :: 0 <= j < |ips| ==> LooksPrivate(ips[j])
    decreases |ips|
  {
    if |ips| == 0 then None
    else if !LooksPrivate(ips[0]) then Some(0)
    else
      match FirstPublic(ips[1..])
      case None => None
      case Some(k) => Some(k + 1)
  }

  /**
    The public address the notifier picks from a forwarded-for string: a
    candidate that starts with none of the private prefixes, every candidate
    before it starting with one of them; None exactly when every candidate
    looks private. SelectedIsFirstPublicPiece and NoneSelectedIffAllPrivate
    restate this in terms of the raw comma-separated pieces.
   */
  function SelectPublicIp(ipRaw: string): (r: Option<string>)
    ensures r.Some? ==>
      exists i :: 0 <= i < |Candidates(ipRaw)| && r.value == Candidates(ipRaw)[i]
        && forall j :: 0 <= j < i ==> LooksPrivate(Candidates(ipRaw)[j])
    ensures r.Some? ==> !LooksPrivate(r.value) && Trimmed(r.value)
    ensures r.None? <==>
      forall j :: 0 <= j < |Candidates(ipRaw)| ==> LooksPrivate(Candidates(ipRaw)[j])
  {
    var ips := Candidates(ipRaw);
    match FirstPublic(ips)
    case None => None
    case Some(k) => Some(ips[k])
  }

  /**
    The selection in terms of the raw pieces: the selected address is the
    trimmed form of a comma-separated piece, and every piece before it, once
    trimmed, starts with a private prefix.
   */
  lemma SelectedIsFirstPublicPiece(ipRaw: string)
    requires SelectPublicIp(ipRaw).Some?
    ensures exists i :: 0 <= i < |Split(ipRaw, ',')|
                        && SelectPublicIp(ipRaw).value == Trim(Split(ipRaw, ',')[i])
                        && forall j :: 0 <= j < i ==> LooksPrivate(Trim(Split(ipRaw, ',')[j]))
  {
    var pieces, ips := Split(ipRaw, ','), Candidates(ipRaw);
    var i :| 0 <= i < |ips| && SelectPublicIp(ipRaw).value == ips[i]
      && forall j :: 0 <= j < i ==> LooksPrivate(ips[j]);
    assert SelectPublicIp(ipRaw).value == Trim(pieces[i]);
    assert forall j :: 0 <= j < i ==> LooksPrivate(Trim(pieces[j])) by {
      forall j | 0 <= j < i ensures LooksPrivate(Trim(pieces[j])) {
        assert ips[j] == Trim(pieces[j]);
      }
    }
  }

  /** No address is selected exactly when every trimmed piece starts with a private prefix. */
  lemma NoneSelectedIffAllPrivate(ipRaw: string)
    ensures SelectPublicIp(ipRaw).None? <==>
      forall j :: 0 <= j < |Split(ipRaw, ',')| ==> LooksPrivate(Trim(Split(ipRaw, ',')[j]))
  {
    var pieces, ips := Split(ipRaw, ','), Candidates(ipRaw);
    if SelectPublicIp(ipRaw).None? {
      forall j | 0 <= j < |pieces| ensures LooksPrivate(Trim(pieces[j])) {
        assert ips[j] == Trim(pieces[j]);
      }
    } else {
      var v := SelectPublicIp(ipRaw).value;
      var i :| 0 <= i < |ips| && v == ips[i];
      assert i < |pieces| && Trim(pieces[i]) == v && !LooksPrivate(v);
      assert !LooksPrivate(Trim(Split(ipRaw, ',')[i]));
    }
  }

  /** `if (publicIp)`: a selected address counts only when it is not the empty string. */
  predicate Truthy(ip: Option<string>) {
    ip.Some? && ip.value != ""
  }

  // ---------------------------------------------------------------------------
  // Location lookup with a backup provider (mailer.js:5-32)
  // ---------------------------------------------------------------------------

  /**
    What the primary provider (ipapi.co) answers: a transport or JSON failure,
    or a record whose `error` field is reduced to its truthiness.
   */
  datatype PrimaryAnswer =
    | PrimaryFailed
    | PrimaryRecord(error: bool, city: JsValue, region: JsValue, countryName: JsValue, org: JsValue)

  /**
    What the backup provider (ipwho.is) answers: a failure, or a record whose
    `success` field is reduced to its truthiness; `isp` is `connection?.isp`
    (Undefined when `connection` is missing).
   */
  datatype BackupAnswer =
    | BackupFailed
    | BackupRecord(success: bool, city: JsValue, region: JsValue, country: JsValue, isp: JsValue)

  const UnknownIsp: string := "Unknown ISP"
  /** Returned by the lookup when both providers fail. */
  const UnknownLocation: string := "Unknown location"
  /** Used by the notifier when no lookup is made. */
  const NoLookupLocation: string := "unknown location"

  /**
    `${city}, ${region}, ${country} (ISP: ${isp || 'Unknown ISP'})`. A described
    location always ends with ')', so it is never one of the two sentinels.
   */
  function Describe(city: JsValue, region: JsValue, country: JsValue, isp: JsValue): (r: string)
    ensures |r| > 0 && r[|r| - 1] == ')'
    ensures r != UnknownLocation && r != NoLookupLocation
  {
    Render(city) + ", " + Render(region) + ", " + Render(country) + " (ISP: " + OrElse(isp, UnknownIsp) + ")"
  }

  /** The primary answer is used: it arrived, carries no error and names a city. */
  predicate PrimaryUsable(p: PrimaryAnswer) {
    p.PrimaryRecord? && !p.error && !Falsy(p.city)
  }

  /** The backup answer is used: it arrived and reports success. */
  predicate BackupUsable(b: BackupAnswer) {
    b.BackupRecord? && b.success
  }

  /**
    `lookupIp`: the primary's description when usable, else the backup's when
    usable, else the sentinel. It is total: no failure reaches the caller.
   */
  function LookupIp(p: PrimaryAnswer, b: BackupAnswer): (r: string)
    ensures r == UnknownLocation <==> !PrimaryUsable(p) && !BackupUsable(b)
    ensures r != NoLookupLocation
  {
    if PrimaryUsable(p) then
      Describe(p.city, p.region, p.countryName, p.org)
    else if BackupUsable(b) then
      Describe(b.city, b.region, b.country, b.isp)
    else
      UnknownLocation
  }

  /** Each provider as a strategy on its own: the description it yields, or None. */
  function PrimaryStrategy(p: PrimaryAnswer): Option<string> {
    if PrimaryUsable(p) then Some(Describe(p.city, p.region, p.countryName, p.org)) else None
  }

  function BackupStrategy(b: BackupAnswer): Option<string> {
    if BackupUsable(b) then Some(Describe(b.city, b.region, b.country, b.isp)) else None
  }

  /** Try the strategies' results in order; the first that yields wins, else the default. */
  function FirstYield(results: seq<Option<string>>, default: string): (r: string)
    ensures || (exists i :: 0 <= i < |results| && results[i].Some? && r == results[i].value
                            && forall j :: 0 <= j < i ==> results[j].None?)
            || (r == default && forall j :: 0 <= j < |results| ==> results[j].None?)
    decreases |results|
  {
    if |results| == 0 then default
    else if results[0].Some? then results[0].value
    else
      assert forall j :: 1 <= j < |results| ==> results[j] == results[1..][j - 1];
      FirstYield(results[1..], default)
  }

  /** The lookup is the ordered provider chain primary, backup, with the sentinel at the end. */
  lemma LookupIsProviderChain(p: PrimaryAnswer, b: BackupAnswer)
    ensures LookupIp(p, b) == FirstYield([PrimaryStrategy(p), BackupStrategy(b)], UnknownLocation)
  {
    var results := [PrimaryStrategy(p), BackupStrategy(b)];
    assert results[1..] == [BackupStrategy(b)];
    assert results[1..][1..] == [];
  }

  /** A usable primary answer decides the result; the backup answer plays no part. */
  lemma PrimaryWins(p: PrimaryAnswer, b: BackupAnswer, b': BackupAnswer)
    requires PrimaryUsable(p)
    ensures LookupIp(p, b) == LookupIp(p, b')
    ensures LookupIp(p, b) == Render(p.city) + ", " + Render(p.region) + ", " + Render(p.countryName)
      + " (ISP: " + (if Falsy(p.org) then "Unknown ISP" else p.org.s) + ")"
  {
  }

  /**
    With an unusable primary answer, a successful backup answer decides the
    result, with the ISP defaulting when `connection.isp` is missing or empty.
   */
  lemma BackupFallback(p: PrimaryAnswer, b: BackupAnswer)
    requires !PrimaryUsable(p) && BackupUsable(b)
    ensures LookupIp(p, b) == Render(b.city) + ", " + Render(b.region) + ", " + Render(b.country)
      + " (ISP: " + (if Falsy(b.isp) then "Unknown ISP" else b.isp.s) + ")"
  {
  }

  // ---------------------------------------------------------------------------
  // Composing the notification (mailer.js:34-51)
  // ---------------------------------------------------------------------------

  const Sender: string := "Login Bot <onboarding@resend.dev>"
  const SubjectPrefix: string := "\U{1F510} Login Alert: "

  datatype Email = Email(from: string, to: string, subject: string, text: string)

  /** The message handed to the mail API, and the address looked up on the way, if any. */
  datatype LoginNotice = LoginNotice(lookedUp: Option<string>, email: Email)

  /** The address the body shows: `publicIp || ipRaw`. */
  function ShownIp(ipRaw: string): string {
    var publicIp := SelectPublicIp(ipRaw);
    if Truthy(publicIp) then publicIp.value else ipRaw
  }

  /** `locationInfo`: looked up only for a selected, non-empty address. */
  function NoticeLocation(ipRaw: string, p: PrimaryAnswer, b: BackupAnswer): string {
    if Truthy(SelectPublicIp(ipRaw)) then LookupIp(p, b) else NoLookupLocation
  }

  function UserLine(username: string, timestamp: string): string {
    "User \"" + username + "\" logged in at " + timestamp
  }

  /** The three lines of the body, in order. */
  function BodyLines(username: string, timestamp: string, ip: string, location: string): seq<string> {
    [UserLine(username, timestamp), "IP: " + ip, "Location: " + location]
  }

  function Body(username: string, timestamp: string, ip: string, location: string): string {
    UserLine(username, timestamp) + "\nIP: " + ip + "\nLocation: " + location
  }

  /**
    `sendLoginNotification` up to the send: select the public address, look it
    up only when one is selected (otherwise the location is the lower-case
    sentinel), and compose subject and body. `to` is the configured recipient.
    The subject is the alert prefix followed by the user name, which can be
    read back from it.
   */
  function ComposeNotice(username: string, timestamp: string, ipRaw: string, to: string,
                         p: PrimaryAnswer, b: BackupAnswer): (n: LoginNotice)
    ensures n.email.from == Sender && n.email.to == to
    ensures SubjectPrefix <= n.email.subject && n.email.subject[|SubjectPrefix|..] == username
    ensures n.lookedUp.Some? <==> Truthy(SelectPublicIp(ipRaw))
    ensures n.lookedUp.Some? ==> n.lookedUp == SelectPublicIp(ipRaw)
    ensures n.email.text == Body(username, timestamp, ShownIp(ipRaw), NoticeLocation(ipRaw, p, b))
  {
    var publicIp := SelectPublicIp(ipRaw);
    var lookedUp := if Truthy(publicIp) then publicIp else None;
    var email := Email(Sender, to, SubjectPrefix + username,
                       Body(username, timestamp, ShownIp(ipRaw), NoticeLocation(ipRaw, p, b)));
    LoginNotice(lookedUp, email)
  }

  /**
    When every trimmed entry starts with a private prefix, nothing is looked
    up, the providers' answers do not matter, the body shows the raw input and
    the location is exactly "unknown location".
   */
  lemma NoLookupWithoutPublicIp(username: string, timestamp: string, ipRaw: string, to: string,
                                p: PrimaryAnswer, b: BackupAnswer, p': PrimaryAnswer, b': BackupAnswer)
    requires forall j :: 0 <= j < |Split(ipRaw, ',')| ==> LooksPrivate(Trim(Split(ipRaw, ',')[j]))
    ensures ComposeNotice(username, timestamp, ipRaw, to, p, b).lookedUp == None
    ensures ComposeNotice(username, timestamp, ipRaw, to, p, b).email.text
      == Body(username, timestamp, ipRaw, "unknown location")
    ensures ComposeNotice(username, timestamp, ipRaw, to, p, b)
      == ComposeNotice(username, timestamp, ipRaw, to, p', b')
  {
    NoneSelectedIffAllPrivate(ipRaw);
  }

  /**
    A selected, non-empty address is the one looked up and the one the body
    shows, next to the lookup's result.
   */
  lemma LookupOfSelectedIp(username: string, timestamp: string, ipRaw: string, to: string,
                           p: PrimaryAnswer, b: BackupAnswer)
    requires Truthy(SelectPublicIp(ipRaw))
    ensures ComposeNotice(username, timestamp, ipRaw, to, p, b).lookedUp == SelectPublicIp(ipRaw)
    ensures ComposeNotice(username, timestamp, ipRaw, to, p, b).email.text
      == Body(username, timestamp, SelectPublicIp(ipRaw).value, LookupIp(p, b))
  {
  }

  /**
    The two sentinels differ, so the location tells what happened: exactly
    "unknown location" when no lookup was made, exactly "Unknown location"
    when a lookup was made and both providers failed.
   */
  lemma LocationRevealsLookup(username: string, timestamp: string, ipRaw: string, to: string,
                              p: PrimaryAnswer, b: BackupAnswer)
    ensures NoticeLocation(ipRaw, p, b) == NoLookupLocation
      <==> ComposeNotice(username, timestamp, ipRaw, to, p, b).lookedUp.None?
    ensures NoticeLocation(ipRaw, p, b) == UnknownLocation
      <==> ComposeNotice(username, timestamp, ipRaw, to, p, b).lookedUp.Some?
           && !PrimaryUsable(p) && !BackupUsable(b)
  {
  }

  /**
    The body reads back as its three lines (user and time, address, location)
    whenever none of the inserted values holds a line break.
   */
  lemma BodyReadsBack(username: string, timestamp: string, ip: string, location: string)
    requires '\n' !in username && '\n' !in timestamp && '\n' !in ip && '\n' !in location
    ensures Split(Body(username, timestamp, ip, location), '\n') == BodyLines(username, timestamp, ip, location)
  {
    var lines := BodyLines(username, timestamp, ip, location);
    assert lines[1..] == ["IP: " + ip, "Location: " + location];
    assert lines[1..][1..] == ["Location: " + location];
    assert Join(lines[1..], '\n') == "IP: " + ip + "\n" + "Location: " + location;
    assert Join(lines, '\n') == UserLine(username, timestamp) + "\n" + Join(lines[1..], '\n');
    assert Join(lines, '\n') == Body(username, timestamp, ip, location);
    assert SeparatorFree(lines, '\n');
    SplitJoin(lines, '\n');
  }

  /** A leading entry before a comma contributes its trimmed form as the first candidate. */
  lemma CandidatesCons(hop: string, rest: string)
    requires ',' !in hop
    ensures Candidates(hop + "," + rest) == [Trim(hop)] + Candidates(rest)
  {
    SplitCons(hop, rest, ',');
    var pieces, tail := Split(hop + "," + rest, ','), Split(rest, ',');
    assert pieces[1..] == tail;
    var ips, ips' := Candidates(hop + "," + rest), Candidates(rest);
    forall i | 0 <= i < |ips'| ensures ips[i + 1] == ips'[i] {
      assert pieces[i + 1] == tail[i];
    }
    assert ips == [Trim(hop)] + ips';
  }

  /** A leading hop that looks private is skipped: selection continues with the rest of the chain. */
  lemma PrivateHopSkipped(hop: string, rest: string)
    requires ',' !in hop && LooksPrivate(Trim(hop))
    ensures SelectPublicIp(hop + "," + rest) == SelectPublicIp(rest)
  {
    CandidatesCons(hop, rest);
    var ips, ips' := Candidates(hop + "," + rest), Candidates(rest);
    assert ips[1..] == ips';
  }

  /** A chain of one entry selects that entry, trimmed, unless it looks private. */
  lemma SingleEntry(ip: string)
    requires ',' !in ip
    ensures SelectPublicIp(ip) == if LooksPrivate(Trim(ip)) then None else Some(Trim(ip))
  {
    SplitJoin([ip], ',');
    assert Candidates(ip) == [Trim(ip)];
  }

  /**
    An empty leading entry is what `find` selects (it starts with no private
    prefix), but it is falsy: no lookup is made and the body shows the raw
    input, even when a public address follows. With PrivateHopSkipped this
    covers chains such as "10.0.0.1,,8.8.8.8".
   */
  lemma EmptyEntryBlocksLookup(username: string, timestamp: string, rest: string, to: string,
                               p: PrimaryAnswer, b: BackupAnswer)
    ensures SelectPublicIp("," + rest) == Some("")
    ensures ComposeNotice(username, timestamp, "," + rest, to, p, b).lookedUp == None
    ensures ComposeNotice(username, timestamp, "," + rest, to, p, b).email.text
      == Body(username, timestamp, "," + rest, NoLookupLocation)
  {
    assert "" + "," + rest == "," + rest;
    CandidatesCons("", rest);
    TrimPadding([], "", []);
    var ips := Candidates("," + rest);
    assert ips[0] == "" && !LooksPrivate(ips[0]);
  }

  /**
    A private hop followed by a public entry: the trimmed public entry is
    selected.
   */
  lemma PublicAfterPrivateHop(hop: string, client: string)
    requires ',' !in hop && ',' !in client
    requires LooksPrivate(Trim(hop)) && !LooksPrivate(Trim(client))
    ensures SelectPublicIp(hop + "," + client) == Some(Trim(client))
  {
    PrivateHopSkipped(hop, client);
    SingleEntry(client);
  }

  /** The chain "10.0.0.1, 203.0.113.5" is two comma-free entries joined by a comma. */
  lemma ExampleChain()
    ensures ',' !in "10.0.0.1" && ',' !in " 203.0.113.5"
    ensures "10.0.0.1" + "," + " 203.0.113.5" == "10.0.0.1, 203.0.113.5"
  {
  }

  lemma ExampleHopTrim()
    ensures Trim("10.0.0.1") == "10.0.0.1"
  {
    var hop := "10.0.0.1";
    assert [] + hop + [] == "10.0.0.1";
    TrimPadding([], hop, []);
  }

  lemma ExampleClientTrim()
    ensures Trim(" 203.0.113.5") == "203.0.113.5"
  {
    var pad, client := [' '], "203.0.113.5";
    assert pad + client + [] == " 203.0.113.5";
    TrimPadding(pad, client, []);
  }

  lemma ExampleHopPrivate()
    ensures LooksPrivate(Trim("10.0.0.1"))
  {
    ExampleHopTrim();
    assert "10.0.0.1"[..3] == "10.";
  }

  lemma ExampleClientPublic()
    ensures !LooksPrivate(Trim(" 203.0.113.5"))
  {
    ExampleClientTrim();
    assert "203.0.113.5"[0] == '2';
  }

  /** Behind a private proxy hop, the client's public address is selected. */
  lemma SelectsPastPrivateHop()
    ensures SelectPublicIp("10.0.0.1, 203.0.113.5") == Some("203.0.113.5")
  {
    ExampleChain();
    ExampleHopPrivate();
    ExampleClientPublic();
    ExampleClientTrim();
    PublicAfterPrivateHop("10.0.0.1", " 203.0.113.5");
  }
}
