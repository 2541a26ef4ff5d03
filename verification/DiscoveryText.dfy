// The text of the discovery datagrams: snprintf on one side, strncmp and sscanf on the other.
module DiscoveryText {
  import opened Ids
  import opened Peers
  import opened Text

  function Print(msg: Msg): string {
    match msg
    case Discover(s) => "DISCOVER:" + s
    case Heartbeat(s, f) => "HEARTBEAT:" + (s + (":" + PrintInt(f)))
    case Election(s) => "ELECTION:" + s
    case Coordinator(l) => "COORDINATOR:" + l
  }

  // sscanf(text, "<prefix>%63s", ...)
  function ScanId(text: string, prefix: string): Option<(Id, string)> {
    if !StartsWith(text, prefix) then None
    else
      var (word, rest) := ScanWord(text[|prefix|..], FULL_ID_LENGTH);
      if word == [] then None else Some((word, rest))
  }

  // sscanf(text, "HEARTBEAT:%63s:%d", ...) == 2
  function ScanHeartbeat(text: string): Option<Msg> {
    match ScanId(text, "HEARTBEAT:")
    case None => None
    case Some((id, rest)) =>
      if rest == [] || rest[0] != ':' then None
      else
        match ScanInt(rest[1..])
        case None => None
        case Some(f) => Some(Heartbeat(id, f))
  }

  // The dispatch of process_incoming_udp_messages, up to the handler call.
  function Parse(text: string): Option<Msg> {
    if StartsWith(text, "DISCOVER") then
      match ScanId(text, "DISCOVER:") case None => None case Some((id, _)) => Some(Discover(id))
    else if StartsWith(text, "HEARTBEAT") then ScanHeartbeat(text)
    else if StartsWith(text, "ELECTION") then
      match ScanId(text, "ELECTION:") case None => None case Some((id, _)) => Some(Election(id))
    else if StartsWith(text, "COORDINATOR") then
      match ScanId(text, "COORDINATOR:") case None => None case Some((id, _)) => Some(Coordinator(id))
    else None
  }

  // An id the daemons can hold: it fits the 64 byte buffer and has no white space.
  ghost predicate Plain(id: Id) {
    1 <= |id| <= FULL_ID_LENGTH && forall c :: c in id ==> !IsSpace(c)
  }

  lemma TextAfter(prefix: string, rest: string)
    ensures StartsWith(prefix + rest, prefix) && (prefix + rest)[|prefix|..] == rest
  {
  }

  lemma WordScan(id: Id, rest: string)
    requires Plain(id) && (rest == [] || |id| == FULL_ID_LENGTH)
    ensures ScanWord(id + rest, FULL_ID_LENGTH) == (id, rest)
  {
    var t := id + rest;
    assert t[0] == id[0];
    assert SkipSpace(t) == t;
    SpanAtLeast(NotSpace, id, rest);
    assert t[..|id|] == id && t[|id|..] == rest;
  }

  lemma IdScan(prefix: string, id: Id)
    requires Plain(id)
    ensures ScanId(prefix + id, prefix) == Some((id, ""))
  {
    TextAfter(prefix, id);
    WordScan(id, "");
    assert id + "" == id;
  }

  lemma NameDecides(name: string, other: string, rest: string)
    requires name != [] && other != [] && name[0] != other[0]
    ensures StartsWith(name + rest, name) && !StartsWith(name + rest, other)
  {
    assert (name + rest)[0] == name[0];
  }

  // Printing then parsing gives the message back for every id the daemons can hold.
  lemma DiscoverRoundTrip(id: Id)
    requires Plain(id)
    ensures Print(Discover(id)) == "DISCOVER:" + id
    ensures Parse("DISCOVER:" + id) == Some(Discover(id))
  {
    IdScan("DISCOVER:", id);
    NameDecides("DISCOVER", "HEARTBEAT", ":" + id);
    assert "DISCOVER:" + id == "DISCOVER" + (":" + id);
  }

  lemma ElectionRoundTrip(id: Id)
    requires Plain(id)
    ensures Print(Election(id)) == "ELECTION:" + id
    ensures Parse("ELECTION:" + id) == Some(Election(id))
  {
    IdScan("ELECTION:", id);
    NameDecides("ELECTION", "DISCOVER", ":" + id);
    NameDecides("ELECTION", "HEARTBEAT", ":" + id);
    assert "ELECTION:" + id == "ELECTION" + (":" + id);
  }

  lemma CoordinatorRoundTrip(id: Id)
    requires Plain(id)
    ensures Print(Coordinator(id)) == "COORDINATOR:" + id
    ensures Parse("COORDINATOR:" + id) == Some(Coordinator(id))
  {
    IdScan("COORDINATOR:", id);
    NameDecides("COORDINATOR", "DISCOVER", ":" + id);
    NameDecides("COORDINATOR", "HEARTBEAT", ":" + id);
    NameDecides("COORDINATOR", "ELECTION", ":" + id);
    assert "COORDINATOR:" + id == "COORDINATOR" + (":" + id);
  }

  // %63s does not stop at the colon: unless the id fills all 63 characters, the scan eats the separator.
  lemma ShortIdEatsSeparator(id: Id, tail: string)
    requires Plain(id) && |id| < FULL_ID_LENGTH
    requires tail != [] && forall c :: c in tail ==> c != ':' && !IsSpace(c)
    ensures var (word, rest) := ScanWord(id + (":" + tail), FULL_ID_LENGTH);
      word != [] && (rest == [] || rest[0] != ':')
  {
    var t := id + (":" + tail);
    assert t[0] == id[0];
    assert SkipSpace(t) == t;
    SpanExact(NotSpace, t, "");
    assert t + "" == t;
    var n := Min(|t|, FULL_ID_LENGTH);
    if n < |t| {
      assert t[n..][0] == tail[n - |id| - 1];
      assert t[n..][0] in tail;
    }
  }

  lemma IntTextHasNoColon(f: int)
    ensures PrintInt(f) != [] && forall c :: c in PrintInt(f) ==> c != ':' && !IsSpace(c)
  {
    var ds := PrintNat(if f < 0 then -f else f);
    forall c | c in PrintInt(f) ensures c != ':' && !IsSpace(c) {
      assert c in SignText(f < 0) || c in ds;
    }
  }

  lemma HeartbeatIsScanned(id: Id, f: int)
    ensures var tail := id + (":" + PrintInt(f));
      Parse(Print(Heartbeat(id, f))) == ScanHeartbeat("HEARTBEAT:" + tail)
      && ScanId("HEARTBEAT:" + tail, "HEARTBEAT:") ==
           var (word, rest) := ScanWord(tail, FULL_ID_LENGTH);
           if word == [] then None else Some((word, rest))
  {
    var tail := id + (":" + PrintInt(f));
    TextAfter("HEARTBEAT:", tail);
    NameDecides("HEARTBEAT", "DISCOVER", ":" + tail);
    assert "HEARTBEAT:" + tail == "HEARTBEAT" + (":" + tail);
  }

  // A printed HEARTBEAT is understood exactly when its id has 63 characters, and ignored otherwise.
  lemma HeartbeatRoundTripIff(id: Id, f: int)
    requires Plain(id)
    ensures Print(Heartbeat(id, f)) == "HEARTBEAT:" + (id + (":" + PrintInt(f)))
    ensures Parse(Print(Heartbeat(id, f))) == if |id| == 63 then Some(Heartbeat(id, f)) else None
  {
    HeartbeatIsScanned(id, f);
    if |id| == FULL_ID_LENGTH {
      WordScan(id, ":" + PrintInt(f));
      IntRoundTrip(f, "");
      assert PrintInt(f) + "" == PrintInt(f);
    } else {
      IntTextHasNoColon(f);
      ShortIdEatsSeparator(id, PrintInt(f));
    }
  }

  // No datagram answers to two of the four names, so the order of the tests does not matter.
  lemma DispatchIsUnambiguous(text: string, a: string, b: string)
    requires a in ["DISCOVER", "HEARTBEAT", "ELECTION", "COORDINATOR"]
    requires b in ["DISCOVER", "HEARTBEAT", "ELECTION", "COORDINATOR"]
    requires StartsWith(text, a) && StartsWith(text, b)
    ensures a == b
  {
    assert text[0] == a[0] == b[0];
  }
}
