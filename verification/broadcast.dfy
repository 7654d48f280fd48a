/**
 `send_nfc_tag` in juliana.py: choose the console summary for a record by its
 `type`, then try to send the record to every websocket client in
 `socket_clients`, in list order.

 A client's send is abstract: it succeeds (`Open`), raises `ConnectionClosed`
 (`Closed`, swallowed, the loop goes on), or raises any other exception
 (`Faulty`, which the `except ConnectionClosed` clause does not catch, so it
 leaves `send_nfc_tag` and no later client is tried). The client list is
 taken by value and nothing here returns a new one: sending never adds or
 removes clients.
 */
module Broadcast {
  import opened Base
  import Cards

  datatype Link = Open | Closed | Faulty

  datatype Client = Client(id: nat, link: Link)

  /** One message that reached one client. */
  datatype Delivery = Delivery(client: nat, message: Cards.Record)

  /** The console line `send_nfc_tag` logs before sending, by record type; the three
      recognised types are logged at info level, anything else as a warning. */
  datatype ScanLog =
    | IsoALog(uid: string, atqa: string, sak: string)
    | DesfireLog(uid: string, atqa: string, sak: string)
    | IsoBLog(uid: string)
    | UnknownLog

  datatype Level = Info | Warning

  function LevelOf(log: ScanLog): Level {
    if log.UnknownLog? then Warning else Info
  }

  /** The summary branch of `send_nfc_tag`; None when a key it reads is missing
      (Python raises `KeyError` and nothing is sent). */
  function Summary(card: Cards.Record): (r: Option<ScanLog>)
    ensures r.None? <==>
      "type" !in card ||
      (card["type"] in {"iso-a", "iso-4"} && !("uid" in card && "atqa" in card && "sak" in card)) ||
      (card["type"] == "iso-b" && "uid" !in card)
    ensures r.Some? && "type" in card ==> (LevelOf(r.value) == Info <==> card["type"] in {"iso-a", "iso-4", "iso-b"})
    ensures r.Some? ==>
      && (r.value.IsoALog? <==> card["type"] == "iso-a")
      && (r.value.DesfireLog? <==> card["type"] == "iso-4")
      && (r.value.IsoBLog? <==> card["type"] == "iso-b")
    ensures r.Some? && !r.value.UnknownLog? ==> "uid" in card && r.value.uid == card["uid"]
  {
    if "type" !in card then None
    else if card["type"] == "iso-a" then
      if "uid" in card && "atqa" in card && "sak" in card
      then Some(IsoALog(card["uid"], card["atqa"], card["sak"])) else None
    else if card["type"] == "iso-4" then
      if "uid" in card && "atqa" in card && "sak" in card
      then Some(DesfireLog(card["uid"], card["atqa"], card["sak"])) else None
    else if card["type"] == "iso-b" then
      if "uid" in card then Some(IsoBLog(card["uid"])) else None
    else Some(UnknownLog)
  }

  /** Every record the card handlers emit gets an info-level summary, so
      `send_nfc_tag` always reaches its send loop for them. */
  lemma HandledRecordsSummarise(tag: Cards.Tag)
    requires Cards.HandleCard(tag).Emit?
    ensures Summary(Cards.HandleCard(tag).record).Some?
    ensures LevelOf(Summary(Cards.HandleCard(tag).record).value) == Info
  {
  }

  // ---------------------------------------------------------------------------
  // The send loop, against an independent description of who is reached

  /** The ids of the clients, in list order. */
  function Ids(cs: seq<Client>): (r: seq<nat>)
    ensures |r| == |cs|
  {
    if |cs| == 0 then [] else Ids(cs[..|cs| - 1]) + [cs[|cs| - 1].id]
  }

  /** What the clients receive when `m` is sent to each of them in list order and
      every send either succeeds or raises `ConnectionClosed`: one delivery of `m` to
      each open client, in list order. */
  function Deliveries(cs: seq<Client>, m: Cards.Record): (r: seq<Delivery>)
    ensures |r| <= |cs|
  {
    if |cs| == 0 then []
    else Deliveries(cs[..|cs| - 1], m) + (if cs[|cs| - 1].link == Open then [Delivery(cs[|cs| - 1].id, m)] else [])
  }

  /** Every delivery carries the message that was sent. */
  lemma {:induction false} DeliveriesCarry(cs: seq<Client>, m: Cards.Record)
    ensures forall j :: 0 <= j < |Deliveries(cs, m)| ==> Deliveries(cs, m)[j].message == m
  {
    if |cs| > 0 {
      var pre := Deliveries(cs[..|cs| - 1], m);
      DeliveriesCarry(cs[..|cs| - 1], m);
      assert forall j :: 0 <= j < |pre| ==> Deliveries(cs, m)[j] == pre[j];
    }
  }

  /** The position of the first client whose send raises something other than
      `ConnectionClosed`, or the length of the list when there is none. */
  function FaultIndex(cs: seq<Client>): (k: nat)
    ensures k <= |cs|
    ensures k < |cs| ==> cs[k].link == Faulty
    ensures forall j :: 0 <= j < k ==> cs[j].link != Faulty
  {
    if |cs| == 0 then 0
    else if cs[0].link == Faulty then 0
    else
      var k := 1 + FaultIndex(cs[1..]);
      assert forall j :: 1 <= j < k ==> cs[j] == cs[1..][j - 1];
      k
  }

  /** Some client's send raises something other than `ConnectionClosed`. */
  predicate AnyFaulty(cs: seq<Client>) {
    FaultIndex(cs) < |cs|
  }

  /** How many clients the loop tries: up to and including the first faulty one, or
      all of them when none is faulty. */
  function Tried(cs: seq<Client>): (n: nat)
    ensures n <= |cs|
    ensures AnyFaulty(cs) ==> n == FaultIndex(cs) + 1 && cs[n - 1].link == Faulty
    ensures !AnyFaulty(cs) ==> n == |cs|
  {
    if AnyFaulty(cs) then FaultIndex(cs) + 1 else |cs|
  }

  /** Extending a prefix of the client list by one client extends its ids and its
      deliveries accordingly. */
  lemma PrefixStep(cs: seq<Client>, i: nat, m: Cards.Record)
    requires i < |cs|
    ensures Ids(cs[..i + 1]) == Ids(cs[..i]) + [cs[i].id]
    ensures Deliveries(cs[..i + 1], m) ==
      Deliveries(cs[..i], m) + (if cs[i].link == Open then [Delivery(cs[i].id, m)] else [])
  {
    var pre := cs[..i + 1];
    assert pre[..i] == cs[..i];
    assert pre[i] == cs[i];
  }

  /** The `for socket in socket_clients` loop. `attempted` lists every client a send
      was tried on, `delivered` the messages that arrived, and `raised` whether an
      exception other than `ConnectionClosed` left the loop. Every client before the
      first faulty one is tried, in order, and each open one among them receives the
      record; the faulty one, if any, is tried too, and the loop ends there. */
  method SendAll(clients: seq<Client>, card: Cards.Record)
    returns (attempted: seq<nat>, delivered: seq<Delivery>, raised: bool)
    ensures raised <==> AnyFaulty(clients)
    ensures attempted == Ids(clients[..Tried(clients)])
    ensures delivered == Deliveries(clients[..FaultIndex(clients)], card)
    ensures forall j :: 0 <= j < |delivered| ==> delivered[j].message == card
  {
    attempted, delivered, raised := [], [], false;
    var i := 0;
    while i < |clients|
      invariant 0 <= i <= FaultIndex(clients)
      invariant attempted == Ids(clients[..i])
      invariant delivered == Deliveries(clients[..i], card)
      decreases |clients| - i
    {
      var c := clients[i];
      PrefixStep(clients, i, card);
      attempted := attempted + [c.id];
      if c.link == Faulty {
        DeliveriesCarry(clients[..i], card);
        raised := true;
        return;
      }
      if c.link == Open {
        delivered := delivered + [Delivery(c.id, card)];
      }
      i := i + 1;
    }
    DeliveriesCarry(clients[..i], card);
  }

  /** `send_nfc_tag`: the summary, then the send loop. A record whose summary raises
      `KeyError` reaches no client. */
  method SendNfcTag(clients: seq<Client>, card: Cards.Record)
    returns (log: Option<ScanLog>, attempted: seq<nat>, delivered: seq<Delivery>, raised: bool)
    ensures log == Summary(card)
    ensures log.None? ==> raised && attempted == [] && delivered == []
    ensures log.Some? ==> (raised <==> AnyFaulty(clients))
    ensures log.Some? ==> attempted == Ids(clients[..Tried(clients)])
    ensures log.Some? ==> delivered == Deliveries(clients[..FaultIndex(clients)], card)
    ensures forall j :: 0 <= j < |delivered| ==> delivered[j].message == card
  {
    log := Summary(card);
    if log.None? {
      return log, [], [], true;
    }
    attempted, delivered, raised := SendAll(clients, card);
  }

  /** `on_connect`: handle the card and, when it yields a record, send it. A rejected
      card sends nothing to anyone; an accepted card's record always gets past the
      summary and reaches every open client when no send fails unexpectedly. */
  method OnConnect(tag: Cards.Tag, clients: seq<Client>)
    returns (outcome: Cards.Outcome, attempted: seq<nat>, delivered: seq<Delivery>, raised: bool)
    ensures outcome == Cards.HandleCard(tag)
    ensures outcome.Reject? ==> attempted == [] && delivered == [] && !raised
    ensures outcome.Emit? ==> (raised <==> AnyFaulty(clients))
    ensures outcome.Emit? ==> attempted == Ids(clients[..Tried(clients)])
    ensures outcome.Emit? ==> delivered == Deliveries(clients[..FaultIndex(clients)], outcome.record)
    ensures forall j :: 0 <= j < |delivered| ==> outcome.Emit? && delivered[j].message == outcome.record
  {
    outcome := Cards.HandleCard(tag);
    if outcome.Reject? {
      return outcome, [], [], false;
    }
    HandledRecordsSummarise(tag);
    var log;
    log, attempted, delivered, raised := SendNfcTag(clients, outcome.record);
  }
}
