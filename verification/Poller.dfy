/**
 * Channels, the epoll poller and the kernel's interest set.  A channel's index says where it
 * is known: nowhere, in the poller and the kernel, or in the poller only.
 */
module Poller {
  type Events = bv16

  const NONE_EVENT: Events := 0
  const READ_EVENT: Events := 0x3     // POLLIN | POLLPRI
  const WRITE_EVENT: Events := 0x4    // POLLOUT

  datatype Index = New | Added | Deleted

  datatype Ctl = Add | Mod | Del

  /** What the kernel stores for a descriptor. */
  datatype Interest = Interest(events: Events, ptr: Channel)

  /** One entry of the array epoll_wait fills. */
  datatype Ready = Ready(ptr: Channel, revents: Events)

  class Channel {
    const fd: int
    const poller: EPollPoller
    var events: Events
    var revents: Events
    var index: Index
    var addedToLoop: bool

    /** A new channel is known to nobody; `poller.all` remembers it as a live object. */
    constructor (poller: EPollPoller, fd: int)
      requires poller.Valid()
      modifies poller`all
      ensures this.poller == poller && this.fd == fd && events == NONE_EVENT && index == New && !addedToLoop
      ensures poller.Valid() && poller.all == old(poller.all) + {this}
    {
      this.fd, this.poller := fd, poller;
      events, revents, index, addedToLoop := NONE_EVENT, NONE_EVENT, New, false;
      new;
      poller.all := poller.all + {this};
    }

    predicate IsNoneEvent()
      reads this
    {
      events == NONE_EVENT
    }

    predicate IsWriting()
      reads this
    {
      events & WRITE_EVENT != 0
    }

    predicate IsReading()
      reads this
    {
      events & READ_EVENT != 0
    }

    /** The channel may be registered: it is live, and a new one does not reuse a registered descriptor. */
    ghost predicate CanUpdate()
      reads this, poller, poller.all
    {
      poller.Valid() && this in poller.all && (index == New ==> fd !in poller.channels)
    }

    /** Sets the interest to `wanted` and passes it on; every enable/disable method is a call of this. */
    method SetInterest(wanted: Events)
      requires CanUpdate()
      modifies this, poller
      ensures poller.Valid() && poller.all == old(poller.all)
      ensures events == wanted && addedToLoop && revents == old(revents)
      ensures index == if old(index) == Added && wanted == NONE_EVENT then Deleted else Added
      ensures poller.Registered(this) <==> index == Added
      ensures poller.OthersUntouched(old(poller.kernel), old(poller.channels), fd)
    {
      events := wanted;
      addedToLoop := true;
      poller.UpdateChannel(this);
    }

    method EnableReading()
      requires CanUpdate()
      modifies this, poller
      ensures poller.Valid() && poller.all == old(poller.all)
      ensures IsReading() && IsWriting() == old(IsWriting())
      ensures poller.Registered(this)
      ensures poller.OthersUntouched(old(poller.kernel), old(poller.channels), fd)
    {
      SetInterest(events | READ_EVENT);
    }

    method DisableReading()
      requires CanUpdate()
      modifies this, poller
      ensures poller.Valid() && poller.all == old(poller.all)
      ensures !IsReading() && IsWriting() == old(IsWriting())
      ensures IsWriting() ==> poller.Registered(this)
      ensures poller.OthersUntouched(old(poller.kernel), old(poller.channels), fd)
    {
      SetInterest(events & !READ_EVENT);
    }

    method EnableWriting()
      requires CanUpdate()
      modifies this, poller
      ensures poller.Valid() && poller.all == old(poller.all)
      ensures IsWriting() && IsReading() == old(IsReading())
      ensures poller.Registered(this)
      ensures poller.OthersUntouched(old(poller.kernel), old(poller.channels), fd)
    {
      SetInterest(events | WRITE_EVENT);
    }

    method DisableWriting()
      requires CanUpdate()
      modifies this, poller
      ensures poller.Valid() && poller.all == old(poller.all)
      ensures !IsWriting() && IsReading() == old(IsReading())
      ensures IsReading() ==> poller.Registered(this)
      ensures poller.OthersUntouched(old(poller.kernel), old(poller.channels), fd)
    {
      SetInterest(events & !WRITE_EVENT);
    }

    /** On a registered channel this takes the descriptor out of the kernel. */
    method DisableAll()
      requires CanUpdate()
      modifies this, poller
      ensures poller.Valid() && poller.all == old(poller.all)
      ensures IsNoneEvent() && (old(index) == Added <==> fd !in poller.kernel)
      ensures poller.OthersUntouched(old(poller.kernel), old(poller.channels), fd)
    {
      SetInterest(events & NONE_EVENT);
    }

    method Remove()
      requires poller.Valid() && this in poller.all && IsNoneEvent() && index != New
      modifies this, poller
      ensures poller.Valid() && poller.all == old(poller.all)
      ensures index == New && !addedToLoop && fd !in poller.channels && fd !in poller.kernel
      ensures poller.OthersUntouched(old(poller.kernel), old(poller.channels), fd)
    {
      poller.RemoveChannel(this);
      addedToLoop := false;
    }
  }

  class EPollPoller {
    var channels: map<int, Channel>
    var kernel: map<int, Interest>
    ghost var all: set<Channel>       // every live channel of this loop

    /** The descriptor is in the kernel, with the channel's current events and pointing at it. */
    ghost predicate Registered(c: Channel)
      reads this, c
    {
      c.fd in kernel && kernel[c.fd] == Interest(c.events, c)
    }

    ghost predicate Mapped(c: Channel)
      reads this
    {
      c.fd in channels && channels[c.fd] == c
    }

    /** The index of a channel says what poller and kernel know of it. */
    ghost predicate Agrees(c: Channel)
      reads this, c
    {
      match c.index
      case New => !Mapped(c)
      case Added => Mapped(c) && Registered(c)
      case Deleted => Mapped(c) && c.fd !in kernel && c.events == NONE_EVENT
    }

    /** Poller and kernel agree about every live channel, and know of no other. */
    ghost predicate Valid()
      reads this, all
    {
      && (forall c :: c in all ==> c.poller == this && Agrees(c))
      && Tables()
    }

    ghost predicate Tables()
      reads this
    {
      && (forall fd :: fd in channels ==> channels[fd] in all && channels[fd].fd == fd)
      && (forall fd :: fd in kernel ==> fd in channels && kernel[fd].ptr == channels[fd])
    }

    /** Nothing changed at any other descriptor. */
    ghost predicate OthersUntouched(kernel0: map<int, Interest>, channels0: map<int, Channel>, fd: int)
      reads this
    {
      && kernel - {fd} == kernel0 - {fd}
      && channels - {fd} == channels0 - {fd}
    }

    constructor ()
      ensures Valid() && all == {} && channels == map[] && kernel == map[]
    {
      channels, kernel, all := map[], map[], {};
    }

    /** epoll_ctl: ADD fails on a known descriptor, MOD and DEL on an unknown one. */
    method EpollCtl(op: Ctl, fd: int, interest: Interest) returns (ok: bool)
      modifies this`kernel
      ensures ok <==> (op == Add <==> fd !in old(kernel))
      ensures kernel == if !ok then old(kernel) else if op == Del then old(kernel) - {fd} else old(kernel)[fd := interest]
    {
      ok := if op == Add then fd !in kernel else fd in kernel;
      if ok {
        kernel := if op == Del then kernel - {fd} else kernel[fd := interest];
      }
    }

    /** The kernel call never fails when the operation fits what the kernel holds. */
    method Update(op: Ctl, c: Channel)
      requires op == Add <==> c.fd !in kernel
      modifies this`kernel
      ensures kernel == if op == Del then old(kernel) - {c.fd} else old(kernel)[c.fd := Interest(c.events, c)]
    {
      var ok := EpollCtl(op, c.fd, Interest(c.events, c));
      assert ok;
    }

    /** Agreement, except that `c` has just been given new events. */
    ghost predicate ValidBefore(c: Channel)
      reads this, all
    {
      && c in all && c.poller == this
      && (forall d :: d in all && d != c ==> d.poller == this && Agrees(d))
      && (c.index == New <==> !Mapped(c))
      && (c.index == Added <==> Mapped(c) && c.fd in kernel)
      && Tables()
    }

    method UpdateChannel(c: Channel)
      requires ValidBefore(c) && (c.index == New ==> c.fd !in channels)
      modifies this`channels, this`kernel, c`index
      ensures Valid()
      ensures c.index == if old(c.index) == Added && c.events == NONE_EVENT then Deleted else Added
      ensures OthersUntouched(old(kernel), old(channels), c.fd)
    {
      if c.index == New || c.index == Deleted {
        if c.index == New {
          channels := channels[c.fd := c];
        }
        c.index := Added;
        Update(Add, c);
      } else {
        UpdateAdded(c);
      }
    }

    /** A channel the kernel knows: changed, or taken out when it has no interest left. */
    method UpdateAdded(c: Channel)
      requires ValidBefore(c) && c.index == Added
      modifies this`channels, this`kernel, c`index
      ensures Valid() && channels == old(channels)
      ensures c.index == if c.events == NONE_EVENT then Deleted else Added
      ensures OthersUntouched(old(kernel), old(channels), c.fd)
    {
      if c.IsNoneEvent() {
        Update(Del, c);
        c.index := Deleted;
      } else {
        Update(Mod, c);
      }
    }

    method RemoveChannel(c: Channel)
      requires Valid() && c in all && c.IsNoneEvent() && c.index != New
      modifies this`channels, this`kernel, c`index
      ensures Valid() && c.index == New && c.fd !in channels && c.fd !in kernel
      ensures OthersUntouched(old(kernel), old(channels), c.fd)
    {
      channels := channels - {c.fd};
      if c.index == Added {
        Update(Del, c);
      }
      c.index := New;
    }

    /** Every event of a kernel answer finds its channel in the map. */
    method FillActiveChannels(ready: seq<Ready>, active: seq<Channel>) returns (active': seq<Channel>)
      requires Valid()
      requires forall i :: 0 <= i < |ready| ==> ready[i].ptr.fd in kernel && kernel[ready[i].ptr.fd].ptr == ready[i].ptr
      modifies set i | 0 <= i < |ready| :: ready[i].ptr`revents
      ensures Valid()
      ensures |active'| == |active| + |ready| && active'[..|active|] == active
      ensures forall i :: 0 <= i < |ready| ==> active'[|active| + i] == ready[i].ptr && Mapped(ready[i].ptr)
      ensures forall i :: 0 <= i < |ready| && (forall j :: i < j < |ready| ==> ready[j].ptr != ready[i].ptr)
                ==> ready[i].ptr.revents == ready[i].revents
    {
      active' := active;
      var n := 0;
      while n < |ready|
        invariant 0 <= n <= |ready| && Valid()
        invariant |active'| == |active| + n && active'[..|active|] == active
        invariant forall i :: 0 <= i < n ==> active'[|active| + i] == ready[i].ptr
        invariant forall i :: 0 <= i < n && (forall j :: i < j < n ==> ready[j].ptr != ready[i].ptr)
                    ==> ready[i].ptr.revents == ready[i].revents
      {
        var c := ready[n].ptr;
        assert c.fd in channels && channels[c.fd] == c;
        c.revents := ready[n].revents;
        active' := active' + [c];
        n := n + 1;
      }
    }
  }

  // ---- Whole runs ----

  datatype Change = ReadOn | ReadOff | WriteOn | WriteOff | AllOff | Removal

  /** The assertions of the code that are about the caller rather than about the poller's own state. */
  ghost predicate Allowed(c: Channel, change: Change)
    reads c, c.poller
  {
    if change == Removal then c.IsNoneEvent() && c.index != New
    else c.index == New ==> c.fd !in c.poller.channels
  }

  method Perform(c: Channel, change: Change)
    requires c.poller.Valid() && c in c.poller.all && Allowed(c, change)
    modifies c, c.poller
    ensures c.poller.Valid() && c.poller.all == old(c.poller.all)
  {
    match change {
      case ReadOn => c.EnableReading();
      case ReadOff => c.DisableReading();
      case WriteOn => c.EnableWriting();
      case WriteOff => c.DisableWriting();
      case AllOff => c.DisableAll();
      case Removal => c.Remove();
    }
  }

  /** Any sequence of interest changes and removals, on any channels, keeps poller and kernel in agreement. */
  method Replay(poller: EPollPoller, run: seq<(Channel, Change)>)
    requires poller.Valid() && forall i :: 0 <= i < |run| ==> run[i].0 in poller.all
    modifies poller, poller.all
    ensures poller.Valid() && poller.all == old(poller.all)
  {
    var i := 0;
    while i < |run|
      invariant 0 <= i <= |run| && poller.Valid() && poller.all == old(poller.all)
    {
      var (c, change) := run[i];
      var allowed := if change == Removal then c.IsNoneEvent() && c.index != New
                     else c.index != New || c.fd !in poller.channels;
      if allowed {
        Perform(c, change);
      }
      i := i + 1;
    }
  }
}
