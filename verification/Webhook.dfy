/**
 * The signed-ingress header (webhook.go SignModeB) and the verifier it has to satisfy (webhook_test.go
 * verifyModeBSignature). HMAC-SHA256 (section 2 of RFC 2104) is a parameter.
 */
module Webhook {
  import opened Text

  /** The MAC of a message under a secret. */
  type Mac = (string, string) -> seq<Byte>

  function Message(unix: int, body: string): string {
    Itoa(unix) + "." + body
  }

  const TIME_TAG := "t="
  const MAC_TAG := "v1="

  function SignModeB(mac: Mac, secret: string, body: string, unix: int): string {
    TIME_TAG + Itoa(unix) + "," + MAC_TAG + EncodeHex(mac(secret, Message(unix, body)))
  }

  /******* The verifier *******/

  datatype Scanned = BadTime | Fields(ts: int, sigHex: string)

  function ScanTime(f: Scanned, p: string): Scanned {
    if f.BadTime? || !HasPrefix(p, TIME_TAG) then f
    else if Atoi(TrimPrefix(p, TIME_TAG)).Some? then f.(ts := Atoi(TrimPrefix(p, TIME_TAG)).value)
    else BadTime
  }

  function ScanMac(f: Scanned, p: string): Scanned {
    if f.BadTime? || !HasPrefix(p, MAC_TAG) then f else f.(sigHex := TrimPrefix(p, MAC_TAG))
  }

  function ScanPart(f: Scanned, p: string): Scanned {
    ScanMac(ScanTime(f, p), p)
  }

  /** The first n parts scanned. */
  function Scan(parts: seq<string>, n: nat): Scanned
    requires n <= |parts|
  {
    if n == 0 then Fields(0, "") else ScanPart(Scan(parts, n - 1), parts[n - 1])
  }

  /** The parts between commas, trimmed. */
  function Parts(header: string): (parts: seq<string>)
    ensures |parts| == |Split(header, ',')|
    ensures forall i :: 0 <= i < |parts| ==> parts[i] == TrimSpace(Split(header, ',')[i])
  {
    seq(|Split(header, ',')|, i requires 0 <= i < |Split(header, ',')| => TrimSpace(Split(header, ',')[i]))
  }

  predicate Accepted(mac: Mac, secret: string, f: Scanned, body: string) {
    f.Fields? && f.ts != 0 && f.sigHex != "" && DecodeHex(f.sigHex) == Some(mac(secret, Message(f.ts, body)))
  }

  predicate Verifies(mac: Mac, secret: string, header: string, body: string) {
    Accepted(mac, secret, Scan(Parts(header), |Parts(header)|), body)
  }

  lemma {:induction false} BadTimeStays(parts: seq<string>, n: nat)
    requires n <= |parts| && Scan(parts, n) == BadTime
    ensures Scan(parts, |parts|) == BadTime
    decreases |parts| - n
  {
    if n < |parts| { BadTimeStays(parts, n + 1); }
  }

  /** The loop over the trimmed parts; not `ok` if a time does not parse. */
  method ScanParts(parts: seq<string>) returns (ts: int, sigHex: string, ok: bool)
    ensures Scan(parts, |parts|) == if ok then Fields(ts, sigHex) else BadTime
  {
    ts, sigHex, ok := 0, "", true;
    for i := 0 to |parts|
      invariant ok && Scan(parts, i) == Fields(ts, sigHex)
    {
      var p := parts[i];
      if HasPrefix(p, TIME_TAG) {
        var v := Atoi(TrimPrefix(p, TIME_TAG));
        if v.None? {
          BadTimeStays(parts, i + 1);
          return 0, "", false;
        }
        ts := v.value;
      }
      if HasPrefix(p, MAC_TAG) {
        sigHex := TrimPrefix(p, MAC_TAG);
      }
    }
  }

  method VerifyModeBSignature(mac: Mac, secret: string, header: string, body: string) returns (accepted: bool)
    ensures accepted <==> Verifies(mac, secret, header, body)
    ensures var parts := Parts(header); var f := Scan(parts, |parts|);
      accepted <==> f.Fields? && f.ts != 0 && f.sigHex != "" && DecodeHex(f.sigHex) == Some(mac(secret, Itoa(f.ts) + "." + body))
  {
    var ts, sigHex, ok := ScanParts(Parts(header));
    if !ok || ts == 0 || sigHex == "" {
      return false;
    }
    var expected := mac(secret, Message(ts, body));
    var got := DecodeHex(sigHex);
    return got.Some? && expected == got.value;
  }

  /******* What signer and verifier owe each other *******/

  lemma ScanTimePart(f: Scanned, text: string, ts: int)
    requires f.Fields? && Atoi(text) == Some(ts)
    ensures ScanPart(f, TIME_TAG + text) == f.(ts := ts)
  {
    Prefixed(TIME_TAG, text);
    OtherPrefix(TIME_TAG, text, MAC_TAG);
  }

  lemma ScanMacPart(f: Scanned, text: string)
    requires f.Fields?
    ensures ScanPart(f, MAC_TAG + text) == f.(sigHex := text)
  {
    Prefixed(MAC_TAG, text);
    OtherPrefix(MAC_TAG, text, TIME_TAG);
  }

  lemma ItoaText(n: int)
    requires MIN_INT64 <= n <= MAX_INT64
    ensures Itoa(n) != "" && Trimmed(Itoa(n)) && ',' !in Itoa(n) && Atoi(Itoa(n)) == Some(n)
  {
    ItoaTrimmed(n);
    AtoiItoa(n);
  }

  lemma HexText(bytes: seq<Byte>)
    requires bytes != []
    ensures EncodeHex(bytes) != "" && Trimmed(EncodeHex(bytes)) && ',' !in EncodeHex(bytes)
  {
    var h := EncodeHex(bytes);
    assert h[0] in h && h[|h| - 1] in h;
    assert HexValue(',') == None;
  }

  lemma ScanTwo(a: string, b: string)
    requires ',' !in a && ',' !in b && Trimmed(a) && Trimmed(b)
    ensures Parts(a + "," + b) == [a, b]
    ensures Scan([a, b], 2) == ScanPart(ScanPart(Fields(0, ""), a), b)
  {
    SplitJoin([a, b], ',');
    assert [a, b][1..] == [b];
    assert Scan([a, b], 1) == ScanPart(Scan([a, b], 0), a);
  }

  /** The header as its receivers know it. */
  lemma SignedParts(mac: Mac, secret: string, body: string, unix: int)
    ensures Split(SignModeB(mac, secret, body, unix), ',')
            == ["t=" + Itoa(unix), "v1=" + EncodeHex(mac(secret, Itoa(unix) + "." + body))]
  {
    var a, b := "t=" + Itoa(unix), "v1=" + EncodeHex(mac(secret, Itoa(unix) + "." + body));
    var h := EncodeHex(mac(secret, Itoa(unix) + "." + body));
    assert HexValue(',') == None;
    assert ',' !in a && ',' !in b;
    assert SignModeB(mac, secret, body, unix) == a + [','] + b;
    SplitJoin([a, b], ',');
    assert [a, b][1..] == [b];
  }

  ghost predicate Last(parts: seq<string>, n: nat, tag: string, i: nat)
    requires n <= |parts|
  {
    i < n && HasPrefix(parts[i], tag) && forall j :: i < j < n ==> !HasPrefix(parts[j], tag)
  }

  /** Whatever the header, a "t=" part that is no number spoils it; otherwise the last "t=" part counts, or 0. */
  lemma {:induction false} ScanTimeIs(parts: seq<string>, n: nat)
    requires n <= |parts|
    ensures Scan(parts, n).BadTime? <==>
              exists i :: 0 <= i < n && HasPrefix(parts[i], "t=") && Atoi(TrimPrefix(parts[i], "t=")).None?
    ensures Scan(parts, n).Fields? ==>
              && (forall i: nat :: Last(parts, n, "t=", i) ==> Atoi(TrimPrefix(parts[i], "t=")) == Some(Scan(parts, n).ts))
              && ((forall i :: 0 <= i < n ==> !HasPrefix(parts[i], "t=")) ==> Scan(parts, n).ts == 0)
  {
    if n > 0 {
      ScanTimeIs(parts, n - 1);
      forall i: nat | Last(parts, n, "t=", i) && !HasPrefix(parts[n - 1], "t=") ensures Last(parts, n - 1, "t=", i) {}
    }
  }

  /** And the last "v1=" part counts, or nothing. */
  lemma {:induction false} ScanMacIs(parts: seq<string>, n: nat)
    requires n <= |parts| && Scan(parts, n).Fields?
    ensures forall i: nat :: Last(parts, n, "v1=", i) ==> TrimPrefix(parts[i], "v1=") == Scan(parts, n).sigHex
    ensures (forall i :: 0 <= i < n ==> !HasPrefix(parts[i], "v1=")) ==> Scan(parts, n).sigHex == ""
  {
    if n > 0 {
      ScanMacIs(parts, n - 1);
      forall i: nat | Last(parts, n, "v1=", i) && !HasPrefix(parts[n - 1], "v1=") ensures Last(parts, n - 1, "v1=", i) {}
    }
  }

  /** The verifier reads back the time and the MAC the signer wrote. */
  lemma ScanSigned(mac: Mac, secret: string, body: string, unix: int)
    requires MIN_INT64 <= unix <= MAX_INT64 && mac(secret, Message(unix, body)) != []
    ensures var parts := Parts(SignModeB(mac, secret, body, unix));
      Scan(parts, |parts|) == Fields(unix, EncodeHex(mac(secret, Message(unix, body))))
  {
    var h := EncodeHex(mac(secret, Message(unix, body)));
    ItoaText(unix);
    HexText(mac(secret, Message(unix, body)));
    assert TIME_TAG + Itoa(unix) + "," + MAC_TAG + h == (TIME_TAG + Itoa(unix)) + "," + (MAC_TAG + h);
    PrefixKeepsTrimmed(TIME_TAG, Itoa(unix));
    PrefixKeepsTrimmed(MAC_TAG, h);
    ScanTwo(TIME_TAG + Itoa(unix), MAC_TAG + h);
    ScanTimePart(Fields(0, ""), Itoa(unix), unix);
    ScanMacPart(Fields(unix, ""), h);
  }

  /** A header signed with one secret over one body is accepted for others exactly when the MACs agree and the time is not 0. */
  lemma AcceptedIff(mac: Mac, secret: string, body: string, unix: int, secret': string, body': string)
    requires MIN_INT64 <= unix <= MAX_INT64 && mac(secret, Message(unix, body)) != []
    ensures Verifies(mac, secret', SignModeB(mac, secret, body, unix), body') <==>
              unix != 0 && mac(secret, Message(unix, body)) == mac(secret', Message(unix, body'))
  {
    ScanSigned(mac, secret, body, unix);
    HexRoundTrip(mac(secret, Message(unix, body)));
  }

  /** Every header signed at a time other than the epoch is accepted, negative times included. */
  lemma SignedVerifiesIff(mac: Mac, secret: string, body: string, unix: int)
    requires MIN_INT64 <= unix <= MAX_INT64 && mac(secret, Message(unix, body)) != []
    ensures Verifies(mac, secret, SignModeB(mac, secret, body, unix), body) <==> unix != 0
  {
    AcceptedIff(mac, secret, body, unix, secret, body);
  }

  /** The signed message determines time and body, so no body can pass for another with another time. */
  lemma MessageInjective(t: int, body: string, u: int, body': string)
    ensures Message(t, body) == Message(u, body') <==> t == u && body == body'
  {
    if Message(t, body) == Message(u, body') {
      CutAt(Itoa(t), '.', body);
      CutAt(Itoa(u), '.', body');
      ItoaInjective(t, u);
    }
  }

  /** With a MAC that does not collide on the two messages, a signature is good for its own body only. */
  lemma ForgedBodyRejected(mac: Mac, secret: string, body: string, unix: int, body': string)
    requires MIN_INT64 <= unix <= MAX_INT64 && mac(secret, Message(unix, body)) != []
    requires mac(secret, Message(unix, body)) == mac(secret, Message(unix, body')) ==> Message(unix, body) == Message(unix, body')
    ensures Verifies(mac, secret, SignModeB(mac, secret, body, unix), body') <==> unix != 0 && body == body'
  {
    AcceptedIff(mac, secret, body, unix, secret, body');
    MessageInjective(unix, body, unix, body');
  }

  /** The header determines the time and the MAC. */
  lemma HeaderInjective(mac: Mac, secret: string, body: string, t: int, secret': string, body': string, u: int)
    requires MIN_INT64 <= t <= MAX_INT64 && mac(secret, Message(t, body)) != []
    requires MIN_INT64 <= u <= MAX_INT64 && mac(secret', Message(u, body')) != []
    ensures SignModeB(mac, secret, body, t) == SignModeB(mac, secret', body', u) <==>
              t == u && mac(secret, Message(t, body)) == mac(secret', Message(u, body'))
  {
    ScanSigned(mac, secret, body, t);
    ScanSigned(mac, secret', body', u);
    HexRoundTrip(mac(secret, Message(t, body)));
    HexRoundTrip(mac(secret', Message(u, body')));
  }
}
