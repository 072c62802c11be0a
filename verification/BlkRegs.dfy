/** The registers of the block device as core 1 sees them (main/hyp_virtio_blk.c). */
module BlkRegs {
  import opened Bits

  /** What the driver sets up before the queue goes live. */
  datatype Setup = Setup(deviceFeaturesSel: bv32, driverFeatures: bv32, guestPageSize: bv32,
                         queueSel: bv32, queueNum: bv32, queueAlign: bv32)

  datatype Regs = Regs(setup: Setup, status: bv32, queuePfn: bv32, interruptStatus: bv32,
                       lastAvail: nat, live: bool, kick: bool, irq: bool)

  /** The card behind the device: whether it answers, and its size in sectors. */
  datatype Card = Card(ready: bool, capacity: seq<bv8>)

  predicate Sized(c: Card) {
    |c.capacity| == 8
  }

  function AndNotWord(w: bv32, v: bv32): bv32 {
    w & !v
  }

  function OrOne(w: bv32): bv32 {
    w | 1
  }

  lemma OrOneNonzero(w: bv32)
    ensures OrOne(w) != 0
  {
  }

  /** A byte in its place in a word. */
  function Lane(value: bv32, i: nat, c: bv8): bv32
    requires i < 4
  {
    var x := c as bv32;
    value | (if i == 0 then x else if i == 1 then x << 8 else if i == 2 then x << 16 else x << 24)
  }

  /** Config space: the capacity, little end first, then zeroes, from byte `o` on. */
  function Config(c: Card, o: nat, width: nat): bv32
    requires Sized(c) && width <= 4
  {
    if width == 0 then 0
    else
      var below, at := Config(c, o, width - 1), o + width - 1;
      if at < 16 then Lane(below, width - 1, if at < 8 then c.capacity[at] else 0) else below
  }

  function Read(r: Regs, c: Card, offset: nat, width: nat): bv32
    requires Sized(c) && width <= 4
  {
    if offset >= 0x100 then Config(c, offset - 0x100, width)
    else match offset
      case 0x000 => 0x74726976
      case 0x004 => 1
      case 0x008 => 2
      case 0x00c => 0x50345052
      case 0x034 => 128
      case 0x040 => r.queuePfn
      case 0x060 => r.interruptStatus
      case 0x070 => r.status
      case _ => 0
  }

  function WriteSetup(d: Setup, offset: nat, value: bv32): Setup {
    match offset
    case 0x014 => d.(deviceFeaturesSel := value)
    case 0x020 => d.(driverFeatures := value)
    case 0x028 => d.(guestPageSize := value)
    case 0x030 => d.(queueSel := value)
    case 0x038 => d.(queueNum := value)
    case 0x03c => d.(queueAlign := value)
    case _ => d
  }

  /** A register write; true when it drops the interrupt line. */
  function Write(r: Regs, c: Card, offset: nat, value: bv32): (Regs, bool) {
    match offset
    case 0x040 =>
      var up := value != 0 && r.setup.queueNum != 0 && r.setup.guestPageSize != 0 && c.ready;
      (r.(queuePfn := value, live := up, lastAvail := 0), false)
    case 0x050 => (r.(kick := true), false)
    case 0x064 =>
      var left := AndNotWord(r.interruptStatus, value);
      (r.(interruptStatus := left), left == 0)
    case 0x070 =>
      if value == 0 then (r.(status := value, live := false, interruptStatus := 0, lastAvail := 0), true)
      else (r.(status := value), false)
    case _ => (r.(setup := WriteSetup(r.setup, offset, value)), false)
  }

  /** The poll; true when it raises the interrupt line. */
  function Poll(r: Regs): (Regs, bool) {
    if r.irq then (r.(irq := false, interruptStatus := OrOne(r.interruptStatus)), true) else (r, false)
  }

  /** Who the device is (section 4.2.2 of the virtio specification, legacy): "virt", version 1, block device,
      and how long a queue may be. */
  lemma Identity(r: Regs, c: Card, width: nat)
    requires Sized(c) && width <= 4
    ensures Read(r, c, 0x000, width) == 0x7472_6976 && Read(r, c, 0x004, width) == 1 && Read(r, c, 0x008, width) == 2
    ensures Read(r, c, 0x034, width) == 128 && Read(r, c, 0x00c, width) == 0x5034_5052
  {
  }

  /** Config space starts at 0x100 and is the capacity, byte by byte; other offsets read as 0. */
  lemma OtherReads(r: Regs, c: Card, offset: nat, width: nat)
    requires Sized(c) && width <= 4
    ensures offset >= 0x100 ==>
              Read(r, c, offset, 1) == if offset < 0x108 then c.capacity[offset - 0x100] as bv32 else 0
    ensures offset < 0x100
            && offset != 0x000 && offset != 0x004 && offset != 0x008 && offset != 0x00c && offset != 0x034
            && offset != 0x040 && offset != 0x060 && offset != 0x070 ==>
              Read(r, c, offset, width) == 0
  {
    hide Config;
    if offset >= 0x100 { ConfigByte(c, offset - 0x100); }
  }

  /** What the driver sets up is kept where it belongs; any other write changes nothing. */
  lemma SetupWrites(r: Regs, c: Card, offset: nat, value: bv32)
    ensures Write(r, c, 0x014, value) == (r.(setup := r.setup.(deviceFeaturesSel := value)), false)
    ensures Write(r, c, 0x020, value) == (r.(setup := r.setup.(driverFeatures := value)), false)
    ensures Write(r, c, 0x030, value) == (r.(setup := r.setup.(queueSel := value)), false)
    ensures Write(r, c, 0x03c, value) == (r.(setup := r.setup.(queueAlign := value)), false)
    ensures offset != 0x014 && offset != 0x020 && offset != 0x028 && offset != 0x030 && offset != 0x038 && offset != 0x03c
            && offset != 0x040 && offset != 0x050 && offset != 0x064 && offset != 0x070 ==>
              Write(r, c, offset, value) == (r, false)
  {
    hide AndNotWord;
  }

  /** The page frame number and the status read back. A nonzero status or page number is stored; the queue
      then works exactly when its size and the page size have been set and there is a card. */
  lemma QueueUp(r: Regs, c: Card, num: bv32, page: bv32, pfn: bv32)
    requires Sized(c)
    ensures var a := Write(Write(r, c, 0x038, num).0, c, 0x028, page).0;
      var (t, dropped) := Write(a, c, 0x040, pfn);
      && Read(t, c, 0x040, 4) == pfn && !dropped && t.lastAvail == 0
      && (t.live <==> pfn != 0 && num != 0 && page != 0 && c.ready)
      && t.interruptStatus == r.interruptStatus && t.kick == r.kick && t.irq == r.irq && t.status == r.status
  {
  }

  /** A notification sets the flag that core 0 polls, and nothing else. */
  lemma NotifyKicks(r: Regs, c: Card, value: bv32)
    ensures Write(r, c, 0x050, value) == (r.(kick := true), false)
  {
  }

  /** An acknowledgement clears the bits it names, and drops the line when none is left. */
  lemma AckClears(r: Regs, c: Card, value: bv32)
    requires Sized(c)
    ensures var (t, dropped) := Write(r, c, 0x064, value);
      && Read(t, c, 0x060, 4) == Read(r, c, 0x060, 4) & !value && (dropped <==> Read(t, c, 0x060, 4) == 0)
      && t == r.(interruptStatus := t.interruptStatus)
  {
  }

  /** Status 0 resets: the queue is down, nothing is signalled, and the line drops. Any other status is
      stored. */
  lemma StatusResets(r: Regs, c: Card, value: bv32)
    requires Sized(c)
    ensures var (t, dropped) := Write(r, c, 0x070, value);
      && Read(t, c, 0x070, 4) == value
      && (if value == 0 then !t.live && t.interruptStatus == 0 && t.lastAvail == 0 && dropped
          else t == r.(status := value) && !dropped)
  {
  }

  /** A completion of core 0 sets bit 0 of the interrupt status, once. */
  lemma PollRaises(r: Regs)
    ensures var (t, raised) := Poll(r);
      && (raised <==> r.irq) && !t.irq
      && t == r.(irq := false, interruptStatus := if r.irq then r.interruptStatus | 1 else r.interruptStatus)
  {
  }

  /** A write changes the interrupt status only by an acknowledgement or a reset, and drops the line
      exactly when either leaves it clear. */
  lemma WriteAndLine(r: Regs, c: Card, offset: nat, value: bv32)
    ensures var (t, dropped) := Write(r, c, offset, value);
      && (dropped ==> t.interruptStatus == 0)
      && (!dropped ==> t.interruptStatus == r.interruptStatus
                       || (offset == 0x064 && t.interruptStatus != 0 && r.interruptStatus != 0))
  {
    hide AndNotWord, WriteSetup;
    ZeroStays(value);
  }

  lemma ZeroStays(v: bv32)
    ensures AndNotWord(0, v) == 0
  {
  }

  /** Config space is byte-addressable: a one-byte read at `o` gives byte `o` of the capacity, and 0 past it. */
  lemma ConfigByte(c: Card, o: nat)
    requires Sized(c)
    ensures Config(c, o, 1) == if o < 8 then c.capacity[o] as bv32 else 0
  {
    assert Config(c, o, 0) == 0;
    if o < 16 { LowestLane(if o < 8 then c.capacity[o] else 0); }
  }

  lemma LowestLane(x: bv8)
    ensures Lane(0, 0, x) == x as bv32
  {
  }
}
