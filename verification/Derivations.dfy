/** How a restored value came about, written down as a tree: what stood at each place of the received
    value, which redacted places were filled, dropped or left out, and by which disclosure. Nothing here
    mentions the traversal of sd-cwt/src/restore.rs. */
module Derivations {
  import opened Values
  import opened Disclosures
  import opened Restoration
  import opened ClaimKeys

  datatype Tree =
    | Leaf(v: Value)
    | Tagged(tag: nat, part: Tree)
    | Listed(slots: seq<Slot>)
    | Mapped(fields: seq<Field>, sites: seq<Site>)

  datatype Slot = Open(part: Tree) | Redacted(site: Site)

  /** A map entry: a claim, or the place where the map's list of redacted hashes stands. */
  datatype Field = Named(key: Label, part: Tree) | HashesHere

  /** A redacted place: nothing disclosed it, it was a decoy, or a disclosure filled it. */
  datatype Site =
    | Removed(hash: Bytes)
    | Decoyed(hash: Bytes, d: Disclosure)
    | Shown(hash: Bytes, d: Disclosure, part: Tree)

  // ---- the value that was received --------------------------------------------------------------

  function Received(t: Tree): Value {
    match t
    case Leaf(v) => v
    case Tagged(tag, part) => Tag(tag, Received(part))
    case Listed(slots) => Array(ReceivedSlots(slots))
    case Mapped(fields, sites) => Map(ReceivedFields(fields, Hashes(sites)))
  }

  function ReceivedSlots(slots: seq<Slot>): (r: seq<Value>)
    ensures |r| == |slots|
  {
    if slots == [] then [] else [ReceivedSlot(slots[0])] + ReceivedSlots(slots[1..])
  }

  function ReceivedSlot(slot: Slot): Value {
    match slot
    case Open(part) => Received(part)
    case Redacted(site) => Tag(60, ByteString(site.hash))
  }

  function ReceivedFields(fields: seq<Field>, hashes: seq<Bytes>): (r: seq<Entry>)
    ensures |r| == |fields|
  {
    if fields == [] then [] else [ReceivedField(fields[0], hashes)] + ReceivedFields(fields[1..], hashes)
  }

  function ReceivedField(field: Field, hashes: seq<Bytes>): Entry {
    match field
    case Named(key, part) => Entry(ValueOfLabel(key), Received(part))
    case HashesHere => Entry(Simple(59), Array(HashList(hashes)))
  }

  function HashList(hashes: seq<Bytes>): (r: seq<Value>)
    ensures |r| == |hashes|
  {
    if hashes == [] then [] else [ByteString(hashes[0])] + HashList(hashes[1..])
  }

  function Hashes(sites: seq<Site>): (r: seq<Bytes>)
    ensures |r| == |sites|
  {
    if sites == [] then [] else [sites[0].hash] + Hashes(sites[1..])
  }

  // ---- the value that was restored --------------------------------------------------------------

  /** With `keep`, what nothing disclosed stays in place, and the hashes a map keeps stand at its end. */
  function Restored(t: Tree, keep: bool): Value {
    match t
    case Leaf(v) => v
    case Tagged(tag, part) => Tag(tag, Restored(part, keep))
    case Listed(slots) => Array(RestoredSlots(slots, keep))
    case Mapped(fields, sites) =>
      Map(RestoredFields(fields, keep) + RestoredClaims(sites, keep) + Kept(if keep then Undisclosed(sites) else []))
  }

  function RestoredSlots(slots: seq<Slot>, keep: bool): seq<Value> {
    if slots == [] then [] else RestoredSlot(slots[0], keep) + RestoredSlots(slots[1..], keep)
  }

  function RestoredSlot(slot: Slot, keep: bool): seq<Value> {
    match slot
    case Open(part) => [Restored(part, keep)]
    case Redacted(Removed(hash)) => if keep then [Tag(60, ByteString(hash))] else []
    case Redacted(Decoyed(_, _)) => []
    case Redacted(Shown(_, _, part)) => [Restored(part, keep)]
  }

  function RestoredFields(fields: seq<Field>, keep: bool): seq<Entry> {
    if fields == [] then [] else RestoredField(fields[0], keep) + RestoredFields(fields[1..], keep)
  }

  function RestoredField(field: Field, keep: bool): seq<Entry> {
    match field
    case Named(key, part) => [Entry(ValueOfLabel(key), Restored(part, keep))]
    case HashesHere => []
  }

  function RestoredClaims(sites: seq<Site>, keep: bool): seq<Entry> {
    if sites == [] then [] else RestoredClaim(sites[0], keep) + RestoredClaims(sites[1..], keep)
  }

  function RestoredClaim(site: Site, keep: bool): seq<Entry> {
    if site.Shown? && site.d.kind.Claim? then [Entry(ValueOfLabel(site.d.kind.key), Restored(site.part, keep))] else []
  }

  function Undisclosed(sites: seq<Site>): seq<Value> {
    if sites == [] then [] else Missed(sites[0]) + Undisclosed(sites[1..])
  }

  function Missed(site: Site): seq<Value> {
    if site.Removed? then [ByteString(site.hash)] else []
  }

  function Kept(hashes: seq<Value>): seq<Entry> {
    if hashes == [] then [] else [Entry(Simple(59), Array(hashes))]
  }

  // ---- the disclosures it took ------------------------------------------------------------------

  /** A hash was met, and a disclosure was found for it or not. */
  datatype Event = Event(hash: Bytes, found: Option<Disclosure>)

  /** The hashes in the order they are looked up: those of a map after everything in its other entries, and
      those inside a disclosed value right after its own. */
  function Events(t: Tree): seq<Event> {
    match t
    case Leaf(_) => []
    case Tagged(_, part) => Events(part)
    case Listed(slots) => SlotEvents(slots)
    case Mapped(fields, sites) => FieldEvents(fields) + SiteEvents(sites)
  }

  function SlotEvents(slots: seq<Slot>): seq<Event> {
    if slots == [] then [] else EventsOfSlot(slots[0]) + SlotEvents(slots[1..])
  }

  function EventsOfSlot(slot: Slot): seq<Event> {
    match slot
    case Open(part) => Events(part)
    case Redacted(site) => EventsOfSite(site)
  }

  function FieldEvents(fields: seq<Field>): seq<Event> {
    if fields == [] then [] else EventsOfField(fields[0]) + FieldEvents(fields[1..])
  }

  function EventsOfField(field: Field): seq<Event> {
    match field
    case Named(_, part) => Events(part)
    case HashesHere => []
  }

  function SiteEvents(sites: seq<Site>): seq<Event> {
    if sites == [] then [] else EventsOfSite(sites[0]) + SiteEvents(sites[1..])
  }

  function EventsOfSite(site: Site): seq<Event> {
    match site
    case Removed(hash) => [Event(hash, None)]
    case Decoyed(hash, d) => [Event(hash, Some(d))]
    case Shown(hash, d, part) => [Event(hash, Some(d))] + Events(part)
  }

  /** Every lookup finds what is pending then: a hash no longer or never pending finds nothing, and a
      disclosure found is pending no more. */
  ghost predicate Fed(events: seq<Event>, pending: map<Bytes, Disclosure>) {
    events == [] ||
    (&& (match events[0].found
         case None => events[0].hash !in pending
         case Some(d) => events[0].hash in pending && pending[events[0].hash] == d)
     && Fed(events[1..], pending - {events[0].hash}))
  }

  function Unused(events: seq<Event>, pending: map<Bytes, Disclosure>): map<Bytes, Disclosure> {
    if events == [] then pending else Unused(events[1..], pending - {events[0].hash})
  }

  function CountShown(events: seq<Event>): nat {
    if events == [] then 0
    else (if events[0].found.Some? && !events[0].found.value.kind.Decoy? then 1 else 0) + CountShown(events[1..])
  }

  function CountDecoys(events: seq<Event>): nat {
    if events == [] then 0
    else (if events[0].found.Some? && events[0].found.value.kind.Decoy? then 1 else 0) + CountDecoys(events[1..])
  }

  function CountRemoved(events: seq<Event>): nat {
    if events == [] then 0 else (if events[0].found.None? then 1 else 0) + CountRemoved(events[1..])
  }

  /** The values inside the disclosed ones. */
  function Revealed(events: seq<Event>): nat {
    if events == [] then 0
    else (if events[0].found.Some? && !events[0].found.value.kind.Decoy? then Nodes(events[0].found.value.kind.value) else 0)
         + Revealed(events[1..])
  }

  lemma {:induction false} EventsSplit(a: seq<Event>, b: seq<Event>, pending: map<Bytes, Disclosure>)
    ensures Fed(a + b, pending) <==> Fed(a, pending) && Fed(b, Unused(a, pending))
    ensures Unused(a + b, pending) == Unused(b, Unused(a, pending))
    ensures CountShown(a + b) == CountShown(a) + CountShown(b)
    ensures CountDecoys(a + b) == CountDecoys(a) + CountDecoys(b)
    ensures CountRemoved(a + b) == CountRemoved(a) + CountRemoved(b)
    ensures Revealed(a + b) == Revealed(a) + Revealed(b)
    decreases a
  {
    if a == [] {
      assert a + b == b;
    } else {
      assert (a + b)[1..] == a[1..] + b;
      EventsSplit(a[1..], b, pending - {a[0].hash});
    }
  }

  // ---- which derivations are allowed ------------------------------------------------------------

  ghost predicate Sound(t: Tree, cfg: Config, depth: nat)
    decreases t
  {
    && depth <= cfg.limits.maxDepth
    && match t
       case Leaf(v) => !v.Map? && !v.Array? && !v.Tag? && v != Simple(59)
       case Tagged(tag, part) => tag !in {58, 60, 62} && Sound(part, cfg, depth + 1)
       case Listed(slots) => |slots| <= cfg.limits.maxContainerEntries && SoundSlots(slots, cfg, depth)
       case Mapped(fields, sites) =>
         && |fields| <= cfg.limits.maxContainerEntries && |sites| <= cfg.limits.maxContainerEntries
         && Lists(fields) <= 1 && (sites != [] ==> Lists(fields) == 1 && depth + 2 <= cfg.limits.maxDepth)
         && SoundFields(fields, cfg, depth) && SoundClaims(sites, cfg, depth)
         && Apart(Labels(fields) + ShownLabels(sites), {})
  }

  ghost predicate SoundSlots(slots: seq<Slot>, cfg: Config, depth: nat)
    decreases slots
  {
    slots == [] || (SoundSlot(slots[0], cfg, depth) && SoundSlots(slots[1..], cfg, depth))
  }

  /** A redacted element may be filled by the disclosure of an element only. */
  ghost predicate SoundSlot(slot: Slot, cfg: Config, depth: nat)
    decreases slot
  {
    match slot
    case Open(part) => Sound(part, cfg, depth + 1)
    case Redacted(site) =>
      && depth + 2 <= cfg.limits.maxDepth
      && match site
         case Removed(_) => cfg.mode.Verifier?
         case Decoyed(_, d) => d.kind.Decoy?
         case Shown(_, d, part) => d.kind.Element? && Received(part) == d.kind.value && Sound(part, cfg, depth + 1)
  }

  ghost predicate SoundFields(fields: seq<Field>, cfg: Config, depth: nat)
    decreases fields
  {
    fields == [] || (SoundField(fields[0], cfg, depth) && SoundFields(fields[1..], cfg, depth))
  }

  ghost predicate SoundField(field: Field, cfg: Config, depth: nat)
    decreases field
  {
    match field
    case Named(key, part) => ClaimKey(ValueOfLabel(key)) && Sound(part, cfg, depth + 1)
    case HashesHere => depth + 1 <= cfg.limits.maxDepth
  }

  ghost predicate SoundClaims(sites: seq<Site>, cfg: Config, depth: nat)
    decreases sites
  {
    sites == [] || (SoundClaim(sites[0], cfg, depth) && SoundClaims(sites[1..], cfg, depth))
  }

  /** A hash of a map may be filled by the disclosure of a claim only, and where claims are validated not by
      a claim that must stand in the open at the root. */
  ghost predicate SoundClaim(site: Site, cfg: Config, depth: nat)
    decreases site
  {
    match site
    case Removed(_) => cfg.mode.Verifier?
    case Decoyed(_, d) => d.kind.Decoy?
    case Shown(_, d, part) =>
      && d.kind.Claim? && Received(part) == d.kind.value && Sound(part, cfg, depth + 1)
      && (cfg.validateClaims && depth == 0 ==> !MustStay(ValueOfLabel(d.kind.key)))
  }

  function Lists(fields: seq<Field>): nat {
    if fields == [] then 0 else (if fields[0].HashesHere? then 1 else 0) + Lists(fields[1..])
  }

  function Labels(fields: seq<Field>): seq<Label> {
    if fields == [] then [] else LabelsOf(fields[0]) + Labels(fields[1..])
  }

  function LabelsOf(field: Field): seq<Label> {
    if field.Named? then [field.key] else []
  }

  function ShownLabels(sites: seq<Site>): seq<Label> {
    if sites == [] then [] else ShownLabel(sites[0]) + ShownLabels(sites[1..])
  }

  function ShownLabel(site: Site): seq<Label> {
    if site.Shown? && site.d.kind.Claim? then [site.d.kind.key] else []
  }

  /** No two labels agree, and none is in `used`. */
  ghost predicate Apart(labels: seq<Label>, used: set<Label>) {
    && (forall i :: 0 <= i < |labels| ==> labels[i] !in used)
    && (forall i, j :: 0 <= i < j < |labels| ==> labels[i] != labels[j])
  }

  ghost function Elements(labels: seq<Label>): set<Label> {
    set l | l in labels
  }

  lemma ApartSplit(a: seq<Label>, b: seq<Label>, used: set<Label>)
    ensures Apart(a + b, used) <==> Apart(a, used) && Apart(b, used + Elements(a))
    ensures Elements(a + b) == Elements(a) + Elements(b)
  {
    var all := a + b;
    if Apart(all, used) {
      assert forall i :: 0 <= i < |a| ==> a[i] == all[i];
      assert forall i :: 0 <= i < |b| ==> b[i] == all[|a| + i];
      forall i, k | 0 <= i < |b| && 0 <= k < |a| ensures a[k] != b[i] {
        assert all[k] == a[k] && all[|a| + i] == b[i];
      }
    }
    if Apart(a, used) && Apart(b, used + Elements(a)) {
      forall i | 0 <= i < |all| ensures all[i] !in used {
        assert all[i] == if i < |a| then a[i] else b[i - |a|];
      }
      forall i, j | 0 <= i < j < |all| ensures all[i] != all[j] {
        if i < |a| <= j {
          assert all[i] in a && all[j] == b[j - |a|];
        }
      }
    }
  }
}
