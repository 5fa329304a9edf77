/** The DMA channels of the interface controller: ownership and the DDR reference each channel
    carries (drivers/rda/ifc.c). */
module Ifc {
  import opened Words
  import opened PmDdr

  const CHANNELS: nat := 8
  const UNKNOWN_CHANNEL: nat := 0xff

  /** Owner of each channel (None stands for no request) and the DDR references. */
  datatype Bus = Bus(owner: seq<Option<nat>>, ddr: Ddr)

  /** An owned channel carries exactly one DDR reference, a free one none. */
  ghost predicate BusOk(b: Bus) {
    && |b.owner| == CHANNELS && DdrOk(b.ddr)
    && forall c :: 0 <= c < CHANNELS ==> b.ddr.refs[IFC0 + c] == if b.owner[c].Some? then 1 else 0
  }

  function Took(b: Bus, request: nat, channel: nat): Bus
    requires channel < |b.owner| == CHANNELS && |b.ddr.refs| == MASTERS
  {
    Bus(b.owner[channel := Some(request)], Got(b.ddr, IFC0 + channel))
  }

  function Freed(b: Bus, channel: nat): Bus
    requires channel < |b.owner| == CHANNELS && |b.ddr.refs| == MASTERS
  {
    Bus(b.owner[channel := None], Given(b.ddr, IFC0 + channel))
  }

  lemma TookAndFreedKeepOk(b: Bus, request: nat, channel: nat)
    requires BusOk(b) && channel < CHANNELS
    ensures b.owner[channel].None? ==>
              BusOk(Took(b, request, channel)) && Freed(Took(b, request, channel), channel) == b
    ensures BusOk(Freed(b, channel))
  {
    GetAndPutKeepOk(b.ddr, IFC0 + channel);
    if b.owner[channel].None? {
      assert b.owner[channel := Some(request)][channel := None] == b.owner;
    }
  }

  class Controller {
    const owner: array<Option<nat>>
    const ddr: DdrManager

    ghost predicate Valid()
      reads this, owner, ddr
    {
      owner.Length == CHANNELS && BusOk(View())
    }

    ghost function View(): Bus
      reads this, owner, ddr
    {
      Bus(owner[..], ddr.View())
    }

    constructor (ddr: DdrManager)
      requires DdrOk(ddr.View()) && forall m :: IFC0 <= m < IFC0 + CHANNELS ==> ddr.refs[m] == 0
      ensures Valid() && fresh(owner) && this.ddr == ddr && View().ddr == ddr.View()
      ensures forall c :: 0 <= c < CHANNELS ==> View().owner[c].None?
    {
      this.ddr := ddr;
      owner := new Option<nat>[CHANNELS](_ => None);
    }

    /** `ifc_transfer_start`; `granted` is what the allocator register answered. */
    method TransferStart(request: nat, granted: nat) returns (channel: nat)
      requires Valid() && (granted < CHANNELS ==> owner[granted].None?)
      modifies owner, ddr
      ensures Valid()
      ensures if granted < CHANNELS then channel == granted && View() == Took(old(View()), request, granted)
              else channel == UNKNOWN_CHANNEL && View() == old(View())
    {
      if granted >= CHANNELS {
        return UNKNOWN_CHANNEL;
      }
      TookAndFreedKeepOk(View(), request, granted);
      var r := ddr.Get(IFC0 + granted);
      owner[granted] := Some(request);
      return granted;
    }

    /** `ifc_transfer_stop`, both of its halves; a channel owned by another request is a BUG there. */
    method TransferStop(request: nat, channel: nat)
      requires Valid() && channel < CHANNELS && owner[channel] == Some(request)
      modifies owner, ddr
      ensures Valid() && View() == Freed(old(View()), channel)
    {
      TookAndFreedKeepOk(View(), request, channel);
      var r := ddr.Put(IFC0 + channel);
      owner[channel] := None;
    }
  }
}
