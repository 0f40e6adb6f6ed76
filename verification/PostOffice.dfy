/** Mail between machines: code/network/post.cc over the unreliable network of
    code/machine/network.cc. A step system with any number of machines; packets may be lost, and
    those that are not arrive in the order in which they were sent. */
module PostOffices {
  import opened Bits
  import opened Bytes
  import opened DiskFormat

  const MaxWireSize: nat := 64
  const HeaderSize: nat := 12                          // both headers are three words
  const MaxPacketSize: nat := MaxWireSize - HeaderSize
  const MaxMailSize: nat := MaxPacketSize - HeaderSize

  type Address = word

  datatype PacketHeader = PacketHeader(to: Address, from: Address, length: word)
  datatype MailHeader = MailHeader(to: word, from: word, length: word)

  /** A letter as its sender hands it in, completed with the sender's address: headers, and as
      many bytes of data as the mail header says. */
  datatype Letter = Letter(pkt: PacketHeader, mail: MailHeader, data: seq<byte>)
  datatype Packet = Packet(hdr: PacketHeader, payload: seq<byte>)

  predicate GoodLetter(x: Letter, boxes: nat) {
    && x.mail.length <= MaxMailSize && x.mail.to < boxes && |x.data| == x.mail.length
    && x.pkt.length == x.mail.length + HeaderSize
  }

  /* ------------------------------ packing and unpacking ------------------------------ */

  function HeaderWords(m: MailHeader): (ws: seq<word>) { [m.to, m.from, m.length] }

  function PacketWords(h: PacketHeader): (ws: seq<word>) { [h.to, h.from, h.length] }

  /** The mail header is put in front of the data. */
  function Pack(x: Letter): (p: Packet) {
    Packet(x.pkt, EncodeWords(HeaderWords(x.mail)) + x.data)
  }

  /** What the postal worker makes of its buffer. */
  function MailHeaderOf(buffer: seq<byte>): (m: MailHeader)
    requires |buffer| == MaxPacketSize
  {
    var ws := DecodeWords(buffer[..HeaderSize], 3);
    MailHeader(ws[0], ws[1], ws[2])
  }

  function Unpack(hdr: PacketHeader, buffer: seq<byte>): (x: Letter)
    requires |buffer| == MaxPacketSize && MailHeaderOf(buffer).length <= MaxMailSize
  {
    var m := MailHeaderOf(buffer);
    Letter(hdr, m, buffer[HeaderSize..HeaderSize + m.length])
  }

  /** Network::Receive copies as many bytes as the packet has; the rest of the buffer is stale. */
  function Copied(buffer: seq<byte>, p: seq<byte>): (b: seq<byte>)
    requires |p| <= |buffer|
  {
    p + buffer[|p|..]
  }

  /** Network::Send: the packet header in front, and the rest of the wire's fixed size is whatever
      the new buffer held. */
  function OnWire(p: Packet, junk: seq<byte>): (w: seq<byte>)
    requires |p.payload| <= MaxPacketSize && |junk| == MaxWireSize
    ensures |w| == MaxWireSize
  {
    EncodeWords(PacketWords(p.hdr)) + p.payload + junk[HeaderSize + |p.payload|..]
  }

  /** Network::CheckPktAvail divides it again. */
  function PacketHeaderOf(w: seq<byte>): (h: PacketHeader)
    requires |w| == MaxWireSize
  {
    var ws := DecodeWords(w[..HeaderSize], 3);
    PacketHeader(ws[0], ws[1], ws[2])
  }

  /** The bytes w carry letter x. */
  predicate Carries(w: seq<byte>, x: Letter) {
    && |w| == MaxWireSize && x.pkt.length <= MaxPacketSize
    && PacketHeaderOf(w) == x.pkt && w[HeaderSize..HeaderSize + x.pkt.length] == Pack(x).payload
  }

  lemma {:induction false} WireRoundTrip(x: Letter, boxes: nat, junk: seq<byte>)
    requires GoodLetter(x, boxes) && |junk| == MaxWireSize
    ensures |Pack(x).payload| == x.pkt.length <= MaxPacketSize && Carries(OnWire(Pack(x), junk), x)
  {
    var h, p := EncodeWords(PacketWords(x.pkt)), Pack(x).payload;
    var w := OnWire(Pack(x), junk);
    assert |h| == HeaderSize && |EncodeWords(HeaderWords(x.mail))| == HeaderSize;
    assert w[..HeaderSize] == h;
    WordsRoundTrip(PacketWords(x.pkt));
    assert w[HeaderSize..HeaderSize + |p|] == p;
  }

  /** A payload copied over the worker's buffer is unpacked to the letter it came from. */
  lemma {:induction false} PayloadRoundTrip(x: Letter, boxes: nat, buffer: seq<byte>)
    requires GoodLetter(x, boxes) && |buffer| == MaxPacketSize
    ensures |Pack(x).payload| == x.pkt.length <= MaxPacketSize
    ensures MailHeaderOf(Copied(buffer, Pack(x).payload)) == x.mail
    ensures Unpack(x.pkt, Copied(buffer, Pack(x).payload)) == x
  {
    var b := Copied(buffer, Pack(x).payload);
    var h := EncodeWords(HeaderWords(x.mail));
    assert |h| == HeaderSize;
    assert b[..HeaderSize] == h;
    WordsRoundTrip(HeaderWords(x.mail));
    assert b[HeaderSize..HeaderSize + x.mail.length] == x.data;
  }

  /** Both headers and the data survive the trip as bytes, whatever was in the buffers of the
      sending device, the receiving device and the postal worker before. */
  lemma {:induction false} PackRoundTrip(x: Letter, boxes: nat, junk: seq<byte>, inbox: seq<byte>, buffer: seq<byte>)
    requires GoodLetter(x, boxes) && |junk| == MaxWireSize && |inbox| == MaxPacketSize && |buffer| == MaxPacketSize
    ensures |Pack(x).payload| <= MaxPacketSize
    ensures var w := OnWire(Pack(x), junk);
      var hdr := PacketHeaderOf(w);
      && hdr.length <= MaxPacketSize
      && var received := Copied(inbox, w[HeaderSize..HeaderSize + hdr.length]);
         var b := Copied(buffer, received[..hdr.length]);
         MailHeaderOf(b).length <= MaxMailSize && Unpack(hdr, b) == x
  {
    WireRoundTrip(x, boxes, junk);
    PayloadRoundTrip(x, boxes, buffer);
    var w := OnWire(Pack(x), junk);
    assert Copied(inbox, Pack(x).payload)[..x.pkt.length] == Pack(x).payload;
  }

  /* ------------------------------ the step system ------------------------------ */

  datatype Worker =
    | Waits                                            // at messageAvailable->P()
    | Awake                                            // past P, before network->Receive
    | Holds(hdr: PacketHeader)                         // received, before the mail is put in its box

  datatype Sender =
    | Unlocked
    | Locked(t: nat)                                   // has sendLock, before network->Send
    | Sending(t: nat)                                  // in messageSent->P()

  /** One machine: its socket, the one-slot inbox of its network device (empty when the length in
      inHdr is zero), the postal worker and its buffer, the boxes, and the sending side. For the
      statements it also has the letters sent to it, those of them that were not lost, and how
      many of the latter have been put into boxes. */
  datatype Office = Office(
    socket: seq<seq<byte>>, inHdr: PacketHeader, inbox: seq<byte>, messageAvailable: nat,
    worker: Worker, buffer: seq<byte>, boxes: seq<seq<Letter>>,
    sender: Sender, sendBusy: bool, messageSent: nat,
    sent: seq<Letter>, kept: seq<Letter>, put: nat)

  type Net = map<Address, Office>

  datatype Event =
    | Acquire(a: Address, t: nat)
    | Send(a: Address, x: Letter, lost: bool, junk: seq<byte>)  // network->Send, by the owner of the lock
    | SendDone(a: Address)                             // interrupt
    | Sent(a: Address)                                 // messageSent->P() succeeds, sendLock->Release()
    | Poll(a: Address)                                 // interrupt: CheckPktAvail
    | WorkerP(a: Address)
    | WorkerReceive(a: Address)
    | WorkerPut(a: Address)

  /** What a caller of PostOffice::Send and the scheduling of the machines allow. All machines
      have the same number of boxes. */
  predicate Enabled(n: Net, e: Event, boxes: nat) {
    && e.a in n
    && var o := n[e.a];
       match e
       case Acquire(_, _) => o.sender == Unlocked
       case Send(a, x, _, junk) =>
         && o.sender.Locked? && GoodLetter(x, boxes) && x.pkt.from == a && x.pkt.to in n
         && |junk| == MaxWireSize  // what the new buffer happens to hold
       case SendDone(_) => o.sendBusy
       case Sent(_) => o.sender.Sending? && o.messageSent > 0
       case Poll(_) => true
       case WorkerP(_) => o.worker == Waits && o.messageAvailable > 0
       case WorkerReceive(_) => o.worker == Awake
       case WorkerPut(_) => o.worker.Holds?
  }

  /** The ASSERTs the step runs into. */
  predicate Safe(n: Net, e: Event, boxes: nat)
    requires Enabled(n, e, boxes)
  {
    var o := n[e.a];
    match e
    case Send(a, x, _, _) => !o.sendBusy && 0 < x.pkt.length <= MaxPacketSize && x.pkt.from == a
    case Poll(a) =>
      && |o.inbox| == MaxPacketSize
      && (o.inHdr.length == 0 && o.socket != [] ==>
            var w := o.socket[0];
            |w| == MaxWireSize && PacketHeaderOf(w).to == a && PacketHeaderOf(w).length <= MaxPacketSize)
    case WorkerReceive(_) =>
      0 < o.inHdr.length <= MaxPacketSize && |o.buffer| == MaxPacketSize && |o.inbox| == MaxPacketSize
    case WorkerPut(_) =>
      && |o.buffer| == MaxPacketSize && |o.boxes| == boxes
      && MailHeaderOf(o.buffer).to < boxes && MailHeaderOf(o.buffer).length <= MaxMailSize
    case _ => true
  }

  /** The step of one machine, and for Send its own part of it. */
  function Local(o: Office, e: Event): (o': Office)
    requires e.WorkerReceive? ==> o.inHdr.length <= |o.inbox| && o.inHdr.length <= |o.buffer|
    requires e.Poll? && o.inHdr.length == 0 && o.socket != [] ==>
      && |o.socket[0]| == MaxWireSize && PacketHeaderOf(o.socket[0]).length <= MaxPacketSize
      && |o.inbox| == MaxPacketSize
    requires e.WorkerPut? ==>
      && o.worker.Holds? && |o.buffer| == MaxPacketSize && MailHeaderOf(o.buffer).to < |o.boxes|
      && MailHeaderOf(o.buffer).length <= MaxMailSize
    requires e.Send? ==> o.sender.Locked?
    requires e.Sent? ==> o.messageSent > 0
    requires e.WorkerP? ==> o.messageAvailable > 0
  {
    match e
    case Acquire(_, t) => o.(sender := Locked(t))
    case Send(_, _, _, _) => o.(sender := Sending(o.sender.t), sendBusy := true)
    case SendDone(_) => o.(sendBusy := false, messageSent := o.messageSent + 1)
    case Sent(_) => o.(sender := Unlocked, messageSent := o.messageSent - 1)
    case Poll(_) =>
      if o.inHdr.length != 0 || o.socket == [] then o
      else
        var w, h := o.socket[0], PacketHeaderOf(o.socket[0]);
        o.(socket := o.socket[1..], inHdr := h, inbox := Copied(o.inbox, w[HeaderSize..HeaderSize + h.length]),
           messageAvailable := o.messageAvailable + 1)
    case WorkerP(_) => o.(worker := Awake, messageAvailable := o.messageAvailable - 1)
    case WorkerReceive(_) =>
      o.(worker := Holds(o.inHdr), inHdr := o.inHdr.(length := 0),
         buffer := Copied(o.buffer, o.inbox[..o.inHdr.length]))
    case WorkerPut(_) =>
      var x := Unpack(o.worker.hdr, o.buffer);
      o.(worker := Waits, boxes := o.boxes[x.mail.to := o.boxes[x.mail.to] + [x]], put := o.put + 1)
  }

  /** The receiving end of Send. */
  function Arrives(o: Office, x: Letter, lost: bool, junk: seq<byte>): (o': Office)
    requires |Pack(x).payload| <= MaxPacketSize && |junk| == MaxWireSize
  {
    if lost then o.(sent := o.sent + [x])
    else o.(sent := o.sent + [x], kept := o.kept + [x], socket := o.socket + [OnWire(Pack(x), junk)])
  }

  function Step(n: Net, e: Event, boxes: nat): (n': Net)
    requires Enabled(n, e, boxes) && Safe(n, e, boxes)
  {
    var n1 := n[e.a := Local(n[e.a], e)];
    if e.Send? then
      WireRoundTrip(e.x, boxes, e.junk);
      n1[e.x.pkt.to := Arrives(n1[e.x.pkt.to], e.x, e.lost, e.junk)]
    else n1
  }

  /* ------------------------------ in-order delivery ------------------------------ */

  /** x is y with some elements left out. */
  predicate Subsequence<T(==)>(x: seq<T>, y: seq<T>) {
    if x == [] then true
    else if y == [] then false
    else (x[|x| - 1] == y[|y| - 1] && Subsequence(x[..|x| - 1], y[..|y| - 1])) || Subsequence(x, y[..|y| - 1])
  }

  /** The letters for box b, in order. */
  function ForBox(s: seq<Letter>, b: nat): (r: seq<Letter>) {
    if s == [] then []
    else
      var x := s[|s| - 1];
      ForBox(s[..|s| - 1], b) + if x.mail.to == b then [x] else []
  }

  lemma {:induction false} SubsequenceForBox(x: seq<Letter>, y: seq<Letter>, b: nat)
    requires Subsequence(x, y)
    ensures Subsequence(ForBox(x, b), ForBox(y, b))
    decreases |y|
  {
    if x != [] {
      var x0, y0 := x[..|x| - 1], y[..|y| - 1];
      if x[|x| - 1] == y[|y| - 1] && Subsequence(x0, y0) {
        SubsequenceForBox(x0, y0, b);
        ForBoxLast(x, b);
        ForBoxLast(y, b);
        if x[|x| - 1].mail.to == b { SubsequenceBoth(ForBox(x0, b), ForBox(y0, b), x[|x| - 1]); }
      } else {
        SubsequenceForBox(x, y0, b);
        ForBoxLast(y, b);
        if y[|y| - 1].mail.to == b { SubsequenceMore(ForBox(x, b), ForBox(y0, b), y[|y| - 1]); }
      }
    }
  }

  lemma {:induction false} ForBoxLast(s: seq<Letter>, b: nat)
    requires s != []
    ensures var before, x := s[..|s| - 1], s[|s| - 1];
      ForBox(s, b) == if x.mail.to == b then ForBox(before, b) + [x] else ForBox(before, b)
  {
  }

  lemma {:induction false} SubsequenceBoth<T>(x: seq<T>, y: seq<T>, e: T)
    requires Subsequence(x, y)
    ensures Subsequence(x + [e], y + [e])
  {
    assert (x + [e])[..|x|] == x && (y + [e])[..|y|] == y;
  }

  lemma {:induction false} SubsequenceMore<T>(x: seq<T>, y: seq<T>, e: T)
    requires Subsequence(x, y)
    ensures Subsequence(x, y + [e])
  {
    assert (y + [e])[..|y|] == y;
  }

  lemma {:induction false} SubsequencePrefix<T>(x: seq<T>, y: seq<T>, k: nat)
    requires Subsequence(x, y) && k <= |x|
    ensures Subsequence(x[..k], y)
    decreases |y|
  {
    if 0 < k < |x| {
      var x0, y0 := x[..|x| - 1], y[..|y| - 1];
      if x[|x| - 1] == y[|y| - 1] && Subsequence(x0, y0) {
        SubsequencePrefix(x0, y0, k);
        assert x0[..k] == x[..k];
      } else {
        SubsequencePrefix(x, y0, k);
      }
      SubsequenceMore(x[..k], y0, y[|y| - 1]);
      assert y0 + [y[|y| - 1]] == y;
    } else {
      assert k == |x| ==> x[..k] == x;
    }
  }

  /* ------------------------------ what every step keeps ------------------------------ */

  function Held(o: Office): nat { if o.worker.Holds? then 1 else 0 }

  function Buffered(o: Office): nat { if o.inHdr.length != 0 then 1 else 0 }

  /** The semaphore's value plus a worker between P and Receive is the packet in the inbox. */
  predicate InboxInv(o: Office) {
    o.messageAvailable + (if o.worker == Awake then 1 else 0) == Buffered(o)
  }

  /** One packet at a time goes out, for the owner of the lock. */
  predicate SendInv(o: Office) {
    o.messageSent + (if o.sendBusy then 1 else 0) == if o.sender.Sending? then 1 else 0
  }

  /** The letters on their way: held by the worker, in the inbox, in the socket, in that order. */
  ghost predicate TransitInv(o: Office) {
    && |o.buffer| == MaxPacketSize && |o.inbox| == MaxPacketSize
    && o.put <= |o.kept| && |o.kept| - o.put == Held(o) + Buffered(o) + |o.socket|
    && (Held(o) == 1 ==> HoldsLetter(o.worker.hdr, o.buffer, o.kept[o.put]))
    && (Buffered(o) == 1 ==> HasLetter(o.inHdr, o.inbox, o.kept[o.put + Held(o)]))
    && (forall j :: 0 <= j < |o.socket| ==> Carries(o.socket[j], o.kept[o.put + Held(o) + Buffered(o) + j]))
  }

  predicate HasLetter(hdr: PacketHeader, inbox: seq<byte>, x: Letter)
    requires |inbox| == MaxPacketSize
  {
    hdr == x.pkt && x.pkt.length <= MaxPacketSize && inbox[..x.pkt.length] == Pack(x).payload
  }

  predicate HoldsLetter(hdr: PacketHeader, buffer: seq<byte>, x: Letter)
    requires |buffer| == MaxPacketSize
  {
    && MailHeaderOf(buffer) == x.mail && x.mail.length <= MaxMailSize && Unpack(hdr, buffer) == x
  }

  ghost predicate KeptInv(a: Address, o: Office, boxes: nat) {
    && (forall i :: 0 <= i < |o.kept| ==> GoodLetter(o.kept[i], boxes) && o.kept[i].pkt.to == a)
    && Subsequence(o.kept, o.sent)
  }

  ghost predicate BoxesInv(o: Office, boxes: nat)
    requires o.put <= |o.kept|
  {
    |o.boxes| == boxes && forall b :: 0 <= b < boxes ==> o.boxes[b] == ForBox(o.kept[..o.put], b)
  }

  ghost predicate OfficeInv(a: Address, o: Office, boxes: nat) {
    InboxInv(o) && SendInv(o) && TransitInv(o) && KeptInv(a, o, boxes) && BoxesInv(o, boxes)
  }

  ghost predicate Inv(n: Net, boxes: nat) { forall a :: a in n ==> OfficeInv(a, n[a], boxes) }

  /** None of the ASSERTs fails: the device is free when a packet is sent, packets that arrive are
      well formed and for this machine, and the worker never reads an empty inbox. */
  lemma {:induction false} AllSafe(n: Net, e: Event, boxes: nat)
    requires Inv(n, boxes) && Enabled(n, e, boxes)
    ensures Safe(n, e, boxes)
  {
    var o := n[e.a];
    assert OfficeInv(e.a, o, boxes);
    if e.Poll? && o.inHdr.length == 0 && o.socket != [] {
      assert Carries(o.socket[0], o.kept[o.put + Held(o)]);
    }
  }

  lemma {:induction false} PollTransit(a: Address, o: Office, x: Letter)
    requires TransitInv(o) && o.inHdr.length == 0 && o.socket != [] && x == o.kept[o.put + Held(o)] && x.pkt.length > 0
    ensures |o.socket[0]| == MaxWireSize && PacketHeaderOf(o.socket[0]).length <= MaxPacketSize
    ensures TransitInv(Local(o, Poll(a))) && Buffered(Local(o, Poll(a))) == 1
  {
    assert Carries(o.socket[0], x);
    assert Copied(o.inbox, Pack(x).payload)[..x.pkt.length] == Pack(x).payload;
  }

  lemma {:induction false} PollInv(a: Address, o: Office, boxes: nat)
    requires OfficeInv(a, o, boxes)
    ensures o.inHdr.length == 0 && o.socket != [] ==>
      |o.socket[0]| == MaxWireSize && PacketHeaderOf(o.socket[0]).length <= MaxPacketSize
    ensures OfficeInv(a, Local(o, Poll(a)), boxes)
  {
    if o.inHdr.length == 0 && o.socket != [] {
      assert GoodLetter(o.kept[o.put + Held(o)], boxes);
      PollTransit(a, o, o.kept[o.put + Held(o)]);
    }
  }

  lemma {:induction false} ReceiveTransit(a: Address, o: Office, boxes: nat)
    requires TransitInv(o) && o.worker == Awake && Buffered(o) == 1 && GoodLetter(o.kept[o.put], boxes)
    ensures o.inHdr.length <= MaxPacketSize && TransitInv(Local(o, WorkerReceive(a)))
  {
    PayloadRoundTrip(o.kept[o.put], boxes, o.buffer);
    assert HoldsLetter(o.inHdr, Copied(o.buffer, o.inbox[..o.inHdr.length]), o.kept[o.put]);
  }

  lemma {:induction false} ReceiveInv(a: Address, o: Office, boxes: nat)
    requires OfficeInv(a, o, boxes) && o.worker == Awake
    ensures o.inHdr.length <= MaxPacketSize && OfficeInv(a, Local(o, WorkerReceive(a)), boxes)
  {
    ReceiveTransit(a, o, boxes);
  }

  lemma {:induction false} PutBoxes(o: Office, x: Letter, boxes: nat)
    requires o.put < |o.kept| && BoxesInv(o, boxes) && x == o.kept[o.put] && x.mail.to < boxes
    ensures BoxesInv(o.(boxes := o.boxes[x.mail.to := o.boxes[x.mail.to] + [x]], put := o.put + 1), boxes)
  {
    assert o.kept[..o.put + 1][..o.put] == o.kept[..o.put];
    forall b | 0 <= b < boxes ensures ForBox(o.kept[..o.put + 1], b)
      == if x.mail.to == b then ForBox(o.kept[..o.put], b) + [x] else ForBox(o.kept[..o.put], b)
    {
      ForBoxLast(o.kept[..o.put + 1], b);
    }
  }

  lemma {:induction false} PutTransit(a: Address, o: Office)
    requires TransitInv(o) && o.worker.Holds?
    requires MailHeaderOf(o.buffer).to < |o.boxes| && MailHeaderOf(o.buffer).length <= MaxMailSize
    ensures TransitInv(Local(o, WorkerPut(a)))
  {
  }

  lemma {:induction false} PutInv(a: Address, o: Office, boxes: nat)
    requires OfficeInv(a, o, boxes) && o.worker.Holds?
    requires MailHeaderOf(o.buffer).to < |o.boxes| && MailHeaderOf(o.buffer).length <= MaxMailSize
    ensures OfficeInv(a, Local(o, WorkerPut(a)), boxes)
  {
    PutTransit(a, o);
    PutBoxes(o, o.kept[o.put], boxes);
  }

  lemma {:induction false} LostInv(a: Address, o: Office, x: Letter, boxes: nat)
    requires OfficeInv(a, o, boxes)
    ensures OfficeInv(a, o.(sent := o.sent + [x]), boxes)
  {
    SubsequenceMore(o.kept, o.sent, x);
  }

  lemma {:induction false} ArrivesInv(a: Address, o: Office, x: Letter, junk: seq<byte>, boxes: nat)
    requires OfficeInv(a, o, boxes) && GoodLetter(x, boxes) && x.pkt.to == a && |junk| == MaxWireSize
    ensures |Pack(x).payload| <= MaxPacketSize && OfficeInv(a, Arrives(o, x, false, junk), boxes)
  {
    WireRoundTrip(x, boxes, junk);
    var o' := Arrives(o, x, false, junk);
    SubsequenceBoth(o.kept, o.sent, x);
    ArrivesTransit(o, x, OnWire(Pack(x), junk));
    assert o'.kept[..o.put] == o.kept[..o.put];
    assert KeptInv(a, o', boxes);
  }

  lemma {:induction false} ArrivesTransit(o: Office, x: Letter, w: seq<byte>)
    requires TransitInv(o) && Carries(w, x)
    ensures TransitInv(o.(sent := o.sent + [x], kept := o.kept + [x], socket := o.socket + [w]))
  {
    var o' := o.(sent := o.sent + [x], kept := o.kept + [x], socket := o.socket + [w]);
    assert forall i :: 0 <= i < |o.kept| ==> o'.kept[i] == o.kept[i];
  }

  /** The steps that do not touch the mail. */
  lemma {:induction false} SameMail(a: Address, o: Office, o': Office, boxes: nat)
    requires OfficeInv(a, o, boxes) && InboxInv(o') && SendInv(o')
    requires o' == o.(worker := o'.worker, messageAvailable := o'.messageAvailable, sender := o'.sender,
                      sendBusy := o'.sendBusy, messageSent := o'.messageSent)
    requires o'.worker == o.worker || (Held(o) == 0 && Held(o') == 0)
    ensures OfficeInv(a, o', boxes)
  {
    assert TransitInv(o');
  }

  lemma {:induction false} LocalInv(n: Net, e: Event, boxes: nat)
    requires Inv(n, boxes) && Enabled(n, e, boxes) && Safe(n, e, boxes)
    ensures OfficeInv(e.a, Local(n[e.a], e), boxes)
  {
    var o := n[e.a];
    assert OfficeInv(e.a, o, boxes);
    match e
    case Poll(a) => PollInv(a, o, boxes);
    case WorkerReceive(a) => ReceiveInv(a, o, boxes);
    case WorkerPut(a) => PutInv(a, o, boxes);
    case _ => SameMail(e.a, o, Local(o, e), boxes);
  }

  lemma {:induction false} StepInv(n: Net, e: Event, boxes: nat)
    requires Inv(n, boxes) && Enabled(n, e, boxes)
    ensures Safe(n, e, boxes) && Inv(Step(n, e, boxes), boxes)
  {
    AllSafe(n, e, boxes);
    LocalInv(n, e, boxes);
    var n1 := n[e.a := Local(n[e.a], e)];
    assert Inv(n1, boxes);
    if e.Send? { SendStepInv(n1, e.x, e.lost, e.junk, boxes); }
  }

  lemma {:induction false} SendStepInv(n: Net, x: Letter, lost: bool, junk: seq<byte>, boxes: nat)
    requires Inv(n, boxes) && x.pkt.to in n && GoodLetter(x, boxes) && |junk| == MaxWireSize
    ensures |Pack(x).payload| <= MaxPacketSize && Inv(n[x.pkt.to := Arrives(n[x.pkt.to], x, lost, junk)], boxes)
  {
    SentInv(x.pkt.to, n[x.pkt.to], x, lost, junk, boxes);
  }

  lemma {:induction false} SentInv(a: Address, o: Office, x: Letter, lost: bool, junk: seq<byte>, boxes: nat)
    requires OfficeInv(a, o, boxes) && GoodLetter(x, boxes) && x.pkt.to == a && |junk| == MaxWireSize
    ensures |Pack(x).payload| <= MaxPacketSize && OfficeInv(a, Arrives(o, x, lost, junk), boxes)
  {
    LostInv(a, o, x, boxes);
    ArrivesInv(a, o, x, junk, boxes);
  }

  /* ------------------------------ whole runs ------------------------------ */

  ghost predicate Initial(n: Net, boxes: nat) {
    forall a :: a in n ==>
      var o := n[a];
      && o.socket == [] && o.inHdr.length == 0 && o.messageAvailable == 0 && o.worker == Waits
      && |o.buffer| == MaxPacketSize && |o.inbox| == MaxPacketSize
      && |o.boxes| == boxes && (forall b :: 0 <= b < boxes ==> o.boxes[b] == [])
      && o.sender == Unlocked && !o.sendBusy && o.messageSent == 0 && o.sent == [] && o.kept == [] && o.put == 0
  }

  /** n is where a run with these events can end; `Safe` is not asked for where the run goes on. */
  ghost predicate Reaches(events: seq<Event>, n: Net, boxes: nat) {
    if events == [] then Initial(n, boxes)
    else
      var last := events[|events| - 1];
      exists m :: Reaches(events[..|events| - 1], m, boxes) && Next(m, last, n, boxes)
  }

  ghost predicate Next(m: Net, e: Event, n: Net, boxes: nat) {
    Enabled(m, e, boxes) && (Safe(m, e, boxes) ==> n == Step(m, e, boxes))
  }

  lemma {:induction false} RunInv(events: seq<Event>, n: Net, boxes: nat)
    requires Reaches(events, n, boxes)
    ensures Inv(n, boxes)
  {
    if events != [] {
      var last := events[|events| - 1];
      var m :| Reaches(events[..|events| - 1], m, boxes) && Next(m, last, n, boxes);
      RunInv(events[..|events| - 1], m, boxes);
      StepInv(m, last, boxes);
    }
  }

  /** In every run, over a network that may lose any packet: the mail in each box is an in-order
      subsequence of the mail sent to that box, headers and data intact. */
  lemma {:induction false} MailInOrder(events: seq<Event>, n: Net, boxes: nat, a: Address, b: nat)
    requires Reaches(events, n, boxes) && a in n && b < boxes
    ensures b < |n[a].boxes| && Subsequence(n[a].boxes[b], ForBox(n[a].sent, b))
  {
    RunInv(events, n, boxes);
    assert OfficeInv(a, n[a], boxes);
    SubsequencePrefix(n[a].kept, n[a].sent, n[a].put);
    SubsequenceForBox(n[a].kept[..n[a].put], n[a].sent, b);
  }

  /** When nothing was lost and nothing is on its way, the boxes hold all the mail sent. */
  lemma {:induction false} NothingElseIsLost(events: seq<Event>, n: Net, boxes: nat, a: Address, b: nat)
    requires Reaches(events, n, boxes) && a in n && b < boxes
    requires n[a].kept == n[a].sent && n[a].socket == [] && n[a].messageAvailable == 0 && n[a].worker == Waits
    ensures b < |n[a].boxes| && n[a].boxes[b] == ForBox(n[a].sent, b)
  {
    RunInv(events, n, boxes);
    assert OfficeInv(a, n[a], boxes);
    assert n[a].kept[..n[a].put] == n[a].kept;
  }

  /** No ASSERT of the network or the post office ever fails. */
  lemma {:induction false} RunsAreSafe(events: seq<Event>, n: Net, boxes: nat, e: Event)
    requires Reaches(events, n, boxes) && Enabled(n, e, boxes)
    ensures Safe(n, e, boxes)
  {
    RunInv(events, n, boxes);
    AllSafe(n, e, boxes);
  }

  /* ------------------------------ from the events alone ------------------------------ */

  /** The letters sent to machine a in a run, and those of them that the network did not lose. */
  function SentTo(events: seq<Event>, a: Address): (letters: seq<Letter>) {
    if events == [] then []
    else
      var last := events[|events| - 1];
      SentTo(events[..|events| - 1], a) + if last.Send? && last.x.pkt.to == a then [last.x] else []
  }

  function KeptFor(events: seq<Event>, a: Address): (letters: seq<Letter>) {
    if events == [] then []
    else
      var last := events[|events| - 1];
      KeptFor(events[..|events| - 1], a) + if last.Send? && last.x.pkt.to == a && !last.lost then [last.x] else []
  }

  lemma {:induction false} HistoryStep(n: Net, e: Event, boxes: nat, a: Address)
    requires Enabled(n, e, boxes) && Safe(n, e, boxes)
    ensures var n', here := Step(n, e, boxes), e.Send? && e.x.pkt.to == a;
      && (a in n' <==> a in n)
      && (a in n ==> n'[a].sent == n[a].sent + if here then [e.x] else [])
      && (a in n ==> n'[a].kept == n[a].kept + if here && !e.lost then [e.x] else [])
  {
    if e.Send? { WireRoundTrip(e.x, boxes, e.junk); }
  }

  lemma {:induction false} HistoriesAreEvents(events: seq<Event>, n: Net, boxes: nat, a: Address)
    requires Reaches(events, n, boxes) && a in n
    ensures n[a].sent == SentTo(events, a) && n[a].kept == KeptFor(events, a)
  {
    if events != [] {
      var before, last := events[..|events| - 1], events[|events| - 1];
      var m :| Reaches(before, m, boxes) && Next(m, last, n, boxes);
      RunsAreSafe(before, m, boxes, last);
      HistoryStep(m, last, boxes, a);
      HistoriesAreEvents(before, m, boxes, a);
    }
  }

  /** In every run the mail in a box is an in-order subsequence of the letters that were passed to
      Send for that machine and box; with what is on its way it is all that the network kept. */
  lemma {:induction false} MailIsWhatWasSent(events: seq<Event>, n: Net, boxes: nat, a: Address, b: nat)
    requires Reaches(events, n, boxes) && a in n && b < boxes
    ensures b < |n[a].boxes| && Subsequence(n[a].boxes[b], ForBox(SentTo(events, a), b))
    ensures UnderWay(n[a]) == 0 ==> n[a].boxes[b] == ForBox(KeptFor(events, a), b)
  {
    MailInOrder(events, n, boxes, a, b);
    HistoriesAreEvents(events, n, boxes, a);
    RunInv(events, n, boxes);
    assert OfficeInv(a, n[a], boxes);
    if UnderWay(n[a]) == 0 { assert n[a].kept[..n[a].put] == n[a].kept; }
  }

  /* ------------------------------ mail goes forward ------------------------------ */

  /** Steps of this machine that the letters on their way to its boxes still need. */
  function UnderWay(o: Office): nat {
    4 * |o.socket| + 3 * o.messageAvailable
    + match o.worker
      case Waits => 0
      case Awake => 2
      case Holds(_) => 1
  }

  predicate IsDelivery(e: Event) { e.Poll? || e.WorkerP? || e.WorkerReceive? || e.WorkerPut? }

  /** The step of the machine that comes next for the oldest letter under way. */
  function NextDelivery(a: Address, o: Office): Event {
    match o.worker
    case Awake => WorkerReceive(a)
    case Holds(_) => WorkerPut(a)
    case Waits => if o.messageAvailable > 0 then WorkerP(a) else Poll(a)
  }

  /** As long as something is under way that step is possible, and brings it nearer to its box. */
  lemma {:induction false} MailGoesForward(n: Net, a: Address, boxes: nat)
    requires Inv(n, boxes) && a in n && UnderWay(n[a]) > 0
    ensures var e := NextDelivery(a, n[a]);
      && Enabled(n, e, boxes) && Safe(n, e, boxes) && e.a == a
      && a in Step(n, e, boxes) && UnderWay(Step(n, e, boxes)[a]) == UnderWay(n[a]) - 1
  {
    assert OfficeInv(a, n[a], boxes);
    AllSafe(n, NextDelivery(a, n[a]), boxes);
  }

  /** A sender in messageSent->P() gets on: the interrupt is still to come, or has come and lets it
      return and give up the lock. */
  lemma {:induction false} SenderGoesForward(n: Net, a: Address, boxes: nat)
    requires Inv(n, boxes) && a in n && n[a].sender.Sending?
    ensures if n[a].sendBusy then Enabled(n, SendDone(a), boxes) else Enabled(n, Sent(a), boxes)
    ensures n[a].sendBusy ==> var n' := Step(n, SendDone(a), boxes); a in n' && !n'[a].sendBusy && n'[a].sender.Sending?
    ensures !n[a].sendBusy ==> var n' := Step(n, Sent(a), boxes); a in n' && n'[a].sender == Unlocked
  {
    assert OfficeInv(a, n[a], boxes);
  }
}
