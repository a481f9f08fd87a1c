// Which frames and still images the scan of descriptors puts under which format,
// said by the places of the descriptors in the list that a camera sends.
module DescriptorLists {
  import opened Bytes
  import opened Descriptors
  import opened DescriptorRoundTrip

  predicate AllFormed(ds: seq<Descriptor>) {
    forall i | 0 <= i < |ds| :: Formed(ds[i])
  }

  /** What the frame descriptors among `ds` say, in order. */
  function FramesIn(ds: seq<Descriptor>): seq<FrameDesc>
    requires AllFormed(ds)
  {
    if ds == [] then [] else
      var k := |ds| - 1;
      FramesIn(ds[..k]) + if IsFrame(ds[k]) then [FrameDescOf(ds[k])] else []
  }

  function StillsIn(ds: seq<Descriptor>): seq<StillDesc>
    requires AllFormed(ds)
  {
    if ds == [] then [] else
      var k := |ds| - 1;
      StillsIn(ds[..k]) + if ds[k].StillImage? then [StillOf(ds[k])] else []
  }

  /** The last input header. */
  function HeaderIn(ds: seq<Descriptor>): (h: Option<Descriptor>)
    ensures h.Some? ==> h.value.InputHeader?
  {
    if ds == [] then None else
      var k := |ds| - 1;
      if ds[k].InputHeader? then Some(ds[k]) else HeaderIn(ds[..k])
  }

  ghost predicate Among(at: seq<nat>, i: nat) {
    exists j | 0 <= j < |at| :: at[j] == i
  }

  /** `at` are the places of the format descriptors, in order. */
  ghost predicate FormatsAt(ds: seq<Descriptor>, at: seq<nat>) {
    && (forall j | 0 <= j < |at| :: at[j] < |ds| && IsFormat(ds[at[j]]))
    && (forall i, j | 0 <= i < j < |at| :: at[i] < at[j])
    && (forall i | 0 <= i < |ds| && IsFormat(ds[i]) :: Among(at, i))
  }

  /** The descriptors from behind a format descriptor up to the next one. */
  function Behind(ds: seq<Descriptor>, at: seq<nat>, j: nat): seq<Descriptor>
    requires j < |at| && at[j] < |ds| && (j + 1 < |at| ==> at[j] < at[j + 1] < |ds|)
  {
    ds[at[j] + 1..if j + 1 < |at| then at[j + 1] else |ds|]
  }

  /** `f` is format `j`, with the frames and still images that stand between its descriptor
      and the next format descriptor, in order, and no others. */
  ghost predicate ListedAt(ds: seq<Descriptor>, at: seq<nat>, j: nat, f: FormatDesc)
    requires AllFormed(ds) && FormatsAt(ds, at) && j < |at|
  {
    f == FormatOf(ds[at[j]]).(frames := FramesIn(Behind(ds, at, j)), stills := StillsIn(Behind(ds, at, j)))
  }

  ghost predicate Listed(ds: seq<Descriptor>, at: seq<nat>, formats: seq<FormatDesc>)
    requires AllFormed(ds)
  {
    && FormatsAt(ds, at) && |formats| == |at|
    && forall j | 0 <= j < |at| ::
         ListedAt(ds, at, j, formats[j])
  }

  lemma {:induction false} AddAllSnoc(si: InterfaceDesc, ds: seq<Descriptor>, d: Descriptor)
    requires WellFormed(ds + [d], si.formats != [])
    ensures WellFormed(ds, si.formats != []) && Formed(d)
    ensures NeedsFormat(d) ==> AddAll(si, ds).formats != []
    ensures AddAll(si, ds + [d]) == Add(AddAll(si, ds), d)
    decreases |ds|
  {
    hide Printable, Add, Formed;
    var all := ds + [d];
    if ds == [] {
      assert all == [d] && [d][1..] == [];
      PrintableFormed(d);
    } else {
      assert all[0] == ds[0] && all[1..] == ds[1..] + [d];
      PrintableFormed(ds[0]);
      FormatsGrow(si, ds[0]);
      AddAllSnoc(Add(si, ds[0]), ds[1..], d);
    }
  }

  lemma SnocIn(ds: seq<Descriptor>, d: Descriptor)
    requires AllFormed(ds) && Formed(d)
    ensures AllFormed(ds + [d])
    ensures FramesIn(ds + [d]) == FramesIn(ds) + if IsFrame(d) then [FrameDescOf(d)] else []
    ensures StillsIn(ds + [d]) == StillsIn(ds) + if d.StillImage? then [StillOf(d)] else []
    ensures HeaderIn(ds + [d]) == if d.InputHeader? then Some(d) else HeaderIn(ds)
  {
    hide Formed;
    assert (ds + [d])[..|ds|] == ds && (ds + [d])[|ds|] == d;
  }

  /** One descriptor more: what is behind the last format grows, the others stay. */
  lemma BehindSnoc(ds: seq<Descriptor>, d: Descriptor, at: seq<nat>, j: nat)
    requires FormatsAt(ds, at) && j < |at|
    ensures Behind(ds + [d], at, j) == if j + 1 < |at| then Behind(ds, at, j) else Behind(ds, at, j) + [d]
    ensures Behind(ds + [d], at + [|ds|], j) == Behind(ds, at, j)
  {
    hide Among, IsFormat;
    var all, at', i := ds + [d], at + [|ds|], at[j] + 1;
    if j + 1 < |at| {
      assert at'[j + 1] == at[j + 1];
      assert all[i..at[j + 1]] == ds[i..at[j + 1]];
    } else {
      assert at'[j + 1] == |ds|;
      assert all[i..|ds|] == ds[i..];
      assert all[i..] == ds[i..] + [d];
    }
  }

  lemma AmongMore(at: seq<nat>, k: nat, i: nat)
    ensures Among(at + [k], k)
    ensures Among(at, i) ==> Among(at + [k], i)
  {
    var at' := at + [k];
    assert at'[|at|] == k;
    if Among(at, i) {
      var j :| 0 <= j < |at| && at[j] == i;
      assert at'[j] == i;
    }
  }

  lemma FormatsAtSnoc(ds: seq<Descriptor>, d: Descriptor, at: seq<nat>)
    requires FormatsAt(ds, at)
    ensures FormatsAt(ds + [d], if IsFormat(d) then at + [|ds|] else at)
  {
    hide Among, IsFormat;
    var all := ds + [d];
    if IsFormat(d) {
      forall i | 0 <= i < |all| && IsFormat(all[i])
        ensures Among(at + [|ds|], i)
      {
        AmongMore(at, |ds|, i);
      }
    }
  }

  /** A format descriptor more: the formats before it stay as they are, and it begins with nothing. */
  lemma FormatMore(ds: seq<Descriptor>, d: Descriptor, at: seq<nat>, j: nat, f: FormatDesc)
    requires AllFormed(ds + [d]) && AllFormed(ds) && FormatsAt(ds, at) && IsFormat(d)
    requires FormatsAt(ds + [d], at + [|ds|])
    ensures j < |at| && ListedAt(ds, at, j, f) ==> ListedAt(ds + [d], at + [|ds|], j, f)
    ensures Formed(d) && ListedAt(ds + [d], at + [|ds|], |at|, FormatOf(d))
  {
    var all, at' := ds + [d], at + [|ds|];
    if j < |at| {
      BehindSnoc(ds, d, at, j);
      assert all[at'[j]] == ds[at[j]];
    }
    assert all[at'[|at|]] == d && Behind(all, at', |at|) == [];
    assert FormatOf(d).frames == [] && FormatOf(d).stills == [];
    hide FormatOf, Behind, FormatsAt;
  }

  /** Any other descriptor more: what stands behind the last format has grown by it. */
  lemma OtherMore(ds: seq<Descriptor>, d: Descriptor, at: seq<nat>, j: nat, f: FormatDesc)
    requires AllFormed(ds + [d]) && AllFormed(ds) && Formed(d) && !IsFormat(d)
    requires FormatsAt(ds, at) && FormatsAt(ds + [d], at) && j < |at| && ListedAt(ds, at, j, f)
    ensures j + 1 < |at| ==> ListedAt(ds + [d], at, j, f)
    ensures j + 1 == |at| ==> ListedAt(ds + [d], at, j, Grown(f, d))
  {
    BehindSnoc(ds, d, at, j);
    assert (ds + [d])[at[j]] == ds[at[j]];
    assert AllFormed(Behind(ds, at, j));
    SnocIn(Behind(ds, at, j), d);
    hide Formed, FormatOf, FrameDescOf, StillOf, FramesIn, StillsIn, Behind, FormatsAt, IsFormat, IsFrame;
    assert FramesIn(Behind(ds, at, j)) + [] == FramesIn(Behind(ds, at, j));
    assert StillsIn(Behind(ds, at, j)) + [] == StillsIn(Behind(ds, at, j));
  }

  lemma ListedFormat(ds: seq<Descriptor>, d: Descriptor, at: seq<nat>, formats: seq<FormatDesc>)
    requires AllFormed(ds) && AllFormed(ds + [d]) && Formed(d) && IsFormat(d) && Listed(ds, at, formats)
    ensures Listed(ds + [d], at + [|ds|], formats + [FormatOf(d)])
  {
    FormatsAtSnoc(ds, d, at);
    hide Formed, FormatsAt, ListedAt, IsFormat, AllFormed, FormatOf;
    forall j | 0 <= j <= |at|
      ensures ListedAt(ds + [d], at + [|ds|], j, (formats + [FormatOf(d)])[j])
    {
      FormatMore(ds, d, at, j, (formats + [FormatOf(d)])[j]);
    }
  }

  lemma ListedOther(ds: seq<Descriptor>, d: Descriptor, at: seq<nat>, before: seq<FormatDesc>, formats: seq<FormatDesc>)
    requires AllFormed(ds) && AllFormed(ds + [d]) && Formed(d) && !IsFormat(d) && Listed(ds, at, before)
    requires |formats| == |before| && forall j | 0 <= j < |formats| - 1 :: formats[j] == before[j]
    requires formats != [] ==> formats[|formats| - 1] == Grown(before[|formats| - 1], d)
    ensures Listed(ds + [d], at, formats)
  {
    FormatsAtSnoc(ds, d, at);
    hide Formed, FormatsAt, ListedAt, IsFormat, AllFormed, Grown;
    forall j | 0 <= j < |at|
      ensures ListedAt(ds + [d], at, j, formats[j])
    {
      OtherMore(ds, d, at, j, before[j]);
    }
  }

  /** One descriptor more. */
  lemma ListedSnoc(ds: seq<Descriptor>, d: Descriptor, at: seq<nat>, si: InterfaceDesc)
    requires AllFormed(ds) && Formed(d) && (NeedsFormat(d) ==> si.formats != []) && Listed(ds, at, si.formats)
    ensures AllFormed(ds + [d])
    ensures Listed(ds + [d], if IsFormat(d) then at + [|ds|] else at, Add(si, d).formats)
  {
    hide *;
    AddIs(si, d);
    AllFormedSnoc(ds, d);
    if IsFormat(d) {
      ListedFormat(ds, d, at, si.formats);
    } else {
      ListedOther(ds, d, at, si.formats, Add(si, d).formats);
    }
  }

  lemma AllFormedSnoc(ds: seq<Descriptor>, d: Descriptor)
    requires AllFormed(ds) && Formed(d)
    ensures AllFormed(ds + [d])
  {
    hide Formed;
  }

  /** The fields of `si` are those of the last input header. */
  ghost predicate HeaderFields(ds: seq<Descriptor>, number: byte, si: InterfaceDesc) {
    && si.number == number
    && match HeaderIn(ds)
       case None => si.endpoint == si.terminalLink == si.stillMethod == 0
       case Some(h) =>
         si.endpoint == Mask8F(h.endpoint) && si.terminalLink == h.terminalLink && si.stillMethod == h.stillMethod
  }

  /** For every well-formed list of descriptors: the formats of the interface are those of
      the format descriptors, in order; each has exactly the frames and the still images
      that stand behind it and before the next one, in order; and the other fields are
      those of the last input header. */
  lemma {:induction false} Rebuilt(number: byte, ds: seq<Descriptor>) returns (at: seq<nat>)
    requires WellFormed(ds, false)
    ensures AllFormed(ds)
    ensures var si := AddAll(NewInterface(number), ds); Listed(ds, at, si.formats) && HeaderFields(ds, number, si)
    decreases |ds|
  {
    hide *;
    if ds == [] {
      NoneListed(number);
      at := [];
    } else {
      var k, si0 := |ds| - 1, NewInterface(number);
      var front, d := ds[..k], ds[k];
      assert ds == front + [d];
      NewIsEmpty(number);
      AddAllSnoc(si0, front, d);
      at := Rebuilt(number, front);
      var si := AddAll(si0, front);
      ListedSnoc(front, d, at, si);
      HeaderAdded(front, number, si, d);
      at := if IsFormat(d) then at + [k] else at;
    }
  }

  lemma NoneListed(number: byte)
    ensures AllFormed([]) && WellFormed([], false)
    ensures var si := AddAll(NewInterface(number), []); Listed([], [], si.formats) && HeaderFields([], number, si)
  {
  }

  lemma NewIsEmpty(number: byte)
    ensures NewInterface(number).formats == []
  {
  }

  lemma HeaderAdded(ds: seq<Descriptor>, number: byte, si: InterfaceDesc, d: Descriptor)
    requires AllFormed(ds) && Formed(d) && (NeedsFormat(d) ==> si.formats != []) && HeaderFields(ds, number, si)
    ensures HeaderFields(ds + [d], number, Add(si, d))
  {
    SnocIn(ds, d);
    hide FormatOf, FrameDescOf, StillOf, FramesIn, StillsIn, HeaderIn, Mask8F;
  }

  /** The scan of what a camera sends. */
  lemma ScanRebuilds(number: byte, ds: seq<Descriptor>, stray: seq<byte>) returns (at: seq<nat>)
    requires WellFormed(ds, false) && |stray| < 3
    ensures AllFormed(ds) && forall i | 0 <= i < |ds| :: Printable(ds[i])
    ensures Scannable(NewInterface(number), PrintAll(ds) + stray)
    ensures var si := Scan(NewInterface(number), PrintAll(ds) + stray);
            Listed(ds, at, si.formats) && HeaderFields(ds, number, si)
  {
    hide *;
    NewIsEmpty(number);
    RoundTrip(NewInterface(number), ds, stray);
    at := Rebuilt(number, ds);
  }
}
