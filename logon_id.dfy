/** The server's lookup of the logon-session SID in an access token's group list. */
module LogonId {
  import opened Platform

  /** SE_GROUP_LOGON_ID from winnt.h: both bits mark the logon-session group. */
  const SE_GROUP_LOGON_ID: bv32 := 0xC000_0000

  /** One entry of TOKEN_GROUPS: a group SID and its attribute word. */
  datatype SidAndAttributes = SidAndAttributes(sid: Sid, attributes: bv32)

  /** What GetTokenInformation(TokenGroups) reports for one token: the buffer
      length the first (sizing) call returns, and the group list the second call
      fills in, or None when that second call fails. */
  datatype TokenView = TokenView(requiredLength: nat, groups: Option<seq<SidAndAttributes>>)

  /** The unmanaged heap behind Marshal.AllocHGlobal and Marshal.FreeHGlobal:
      the live blocks, address to size. */
  class NativeHeap {
    var blocks: map<nat, nat>
    var next: nat

    ghost predicate Valid()
      reads this
    {
      forall p :: p in blocks ==> p < next
    }

    constructor ()
      ensures Valid() && blocks == map[]
    {
      blocks := map[];
      next := 0;
    }

    method AllocHGlobal(size: nat) returns (p: nat)
      requires Valid()
      modifies this
      ensures Valid()
      ensures p !in old(blocks) && blocks == old(blocks)[p := size]
      ensures next == old(next) + 1
    {
      p := next;
      blocks := blocks[p := size];
      next := next + 1;
    }

    method FreeHGlobal(p: nat)
      requires Valid() && p in blocks
      modifies this
      ensures Valid()
      ensures blocks == old(blocks) - {p}
      ensures next == old(next)
    {
      blocks := blocks - {p};
    }
  }

  /** The group attribute test of the scan: both SE_GROUP_LOGON_ID bits are set. */
  predicate IsLogonGroup(attributes: bv32) {
    attributes & SE_GROUP_LOGON_ID == SE_GROUP_LOGON_ID
  }

  /** The test holds exactly for the attribute words whose top two bits are set,
      that is for the unsigned values from 0xC0000000 up. */
  lemma LogonGroupIffTopBits(attributes: bv32)
    ensures IsLogonGroup(attributes) <==> attributes >= 0xC000_0000
  {
  }

  /** Index i holds the first logon-session group of the list. */
  ghost predicate IsFirstLogonGroup(groups: seq<SidAndAttributes>, i: int) {
    && 0 <= i < |groups|
    && IsLogonGroup(groups[i].attributes)
    && forall j :: 0 <= j < i ==> !IsLogonGroup(groups[j].attributes)
  }

  /** The SID the scan returns for a group list: that of the first entry whose
      attributes carry SE_GROUP_LOGON_ID, or None (null) when there is none. */
  function FirstLogonSid(groups: seq<SidAndAttributes>): Option<Sid> {
    if |groups| == 0 then None
    else if IsLogonGroup(groups[0].attributes) then Some(groups[0].sid)
    else FirstLogonSid(groups[1..])
  }

  /** The scan finds the lowest-index logon group, and finds nothing only when
      no group of the list is a logon group. */
  lemma {:induction false} FirstLogonSidIsFirstMatch(groups: seq<SidAndAttributes>)
    ensures FirstLogonSid(groups).None? <==>
              forall i :: 0 <= i < |groups| ==> !IsLogonGroup(groups[i].attributes)
    ensures FirstLogonSid(groups).Some? ==>
              exists i :: IsFirstLogonGroup(groups, i) && FirstLogonSid(groups).value == groups[i].sid
  {
    if |groups| > 0 && !IsLogonGroup(groups[0].attributes) {
      var rest := groups[1..];
      FirstLogonSidIsFirstMatch(rest);
      assert forall i :: 0 < i < |groups| ==> groups[i] == rest[i - 1];
      if FirstLogonSid(rest).Some? {
        var i :| IsFirstLogonGroup(rest, i) && FirstLogonSid(rest).value == rest[i].sid;
        assert IsFirstLogonGroup(groups, i + 1);
      } else {
        forall k | 0 <= k < |groups|
          ensures !IsLogonGroup(groups[k].attributes)
        {
          if k > 0 { assert groups[k] == rest[k - 1]; }
        }
      }
    } else if |groups| > 0 {
      assert IsFirstLogonGroup(groups, 0);
    }
  }

  /** The `for` loop of the scan, with its early return on the first match. */
  method FindLogonSid(groups: seq<SidAndAttributes>) returns (sid: Option<Sid>)
    ensures sid == FirstLogonSid(groups)
  {
    for i := 0 to |groups|
      invariant FirstLogonSid(groups) == FirstLogonSid(groups[i..])
    {
      if IsLogonGroup(groups[i].attributes) {
        return Some(groups[i].sid);
      }
      assert groups[i..][1..] == groups[i + 1..];
    }
    return None;
  }

  /** What LogonId.Get returns for a token: null when the second
      GetTokenInformation call fails, otherwise the result of the scan. */
  function LogonSidOf(token: TokenView): Option<Sid> {
    match token.groups
    case None => None
    case Some(groups) => FirstLogonSid(groups)
  }

  /** LogonId.Get(IntPtr): size the buffer, allocate it, fill it, scan it, and
      free it in the `finally` block, so that no exit path leaks the buffer. */
  method Get(token: TokenView, heap: NativeHeap) returns (sid: Option<Sid>)
    requires heap.Valid()
    modifies heap
    ensures heap.Valid() && heap.blocks == old(heap.blocks)
    ensures heap.next == old(heap.next) + 1
    ensures sid == LogonSidOf(token)
  {
    var length := token.requiredLength;
    var buffer := heap.AllocHGlobal(length);
    // try
    match token.groups {
      case None =>
        sid := None;
      case Some(groups) =>
        sid := FindLogonSid(groups);
    }
    // finally
    heap.FreeHGlobal(buffer);
    assert heap.blocks == old(heap.blocks);
  }
}
