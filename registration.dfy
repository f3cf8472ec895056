/** The registration page (login_registration.js): the register/login tabs
    and the dynamic vehicle blocks with their counter. */
module Registration {

  const MaxCustomerVehicles: nat := 4

  /** The years offered for a vehicle, newest first. */
  function YearOptions(): (ys: seq<int>)
    ensures |ys| == 39 && ys[0] == 2026 && ys[38] == 1988
  {
    seq(39, i requires 0 <= i < 39 => 2026 - i)
  }

  /** The year list is strictly descending and offers exactly the years
      1988 to 2026. */
  lemma YearOptionsRange()
    ensures forall i, j :: 0 <= i < j < |YearOptions()| ==> YearOptions()[i] > YearOptions()[j]
    ensures forall y :: y in YearOptions() <==> 1988 <= y <= 2026
  {
    var ys := YearOptions();
    forall y | 1988 <= y <= 2026
      ensures y in ys
    {
      assert ys[2026 - y] == y;
    }
  }

  // ---- tabs -------------------------------------------------------------------------

  /** The `active` classes of the two tabs and their two forms. */
  class Tabs {
    var registerTab: bool
    var loginTab: bool
    var registerForm: bool
    var loginForm: bool

    /** Exactly one tab is active, and its form with it. */
    predicate Consistent()
      reads this
    {
      registerTab != loginTab && registerForm == registerTab && loginForm == loginTab
    }

    constructor (registerFirst: bool)
      ensures Consistent() && registerTab == registerFirst
    {
      registerTab := registerFirst;
      loginTab := !registerFirst;
      registerForm := registerFirst;
      loginForm := !registerFirst;
    }

    /** A click on the register tab, whatever the classes were before. */
    method ClickRegister()
      modifies this
      ensures Consistent() && registerTab && registerForm && !loginTab && !loginForm
    {
      registerTab := true;
      loginTab := false;
      registerForm := true;
      loginForm := false;
    }

    /** A click on the login tab, whatever the classes were before. */
    method ClickLogin()
      modifies this
      ensures Consistent() && loginTab && loginForm && !registerTab && !registerForm
    {
      loginTab := true;
      registerTab := false;
      loginForm := true;
      registerForm := false;
    }
  }

  // ---- vehicle blocks, as written ---------------------------------------------------------

  /** A vehicle is accepted when the account is a fleet or fewer than four
      blocks have been counted. */
  predicate CanAdd(accountType: string, vehicleCount: int) {
    accountType == "Fleet" || vehicleCount < MaxCustomerVehicles
  }

  /** The vehicle blocks of the form as the page keeps them: one counter
      that both numbers the new block and counts the blocks, and the field
      index of each block on the page, in page order. */
  class VehicleBlocks {
    var accountType: string
    var vehicleCount: int
    var blocks: seq<int>

    /** The counter is the number of blocks on the page. */
    predicate Valid()
      reads this
    {
      vehicleCount == |blocks|
    }

    constructor (accountType: string)
      ensures Valid() && this.accountType == accountType && blocks == []
    {
      this.accountType := accountType;
      vehicleCount := 0;
      blocks := [];
    }

    /** The account type select changes. */
    method SetAccountType(t: string)
      modifies this
      ensures accountType == t && vehicleCount == old(vehicleCount) && blocks == old(blocks)
    {
      accountType := t;
    }

    /** `addVehicleBlock`: refused (nothing changes) unless `CanAdd`; else
        the block is numbered with the counter, which then goes up by one. */
    method Add() returns (added: bool)
      requires Valid()
      modifies this
      ensures Valid() && accountType == old(accountType)
      ensures added <==> CanAdd(accountType, old(vehicleCount))
      ensures !added ==> vehicleCount == old(vehicleCount) && blocks == old(blocks)
      ensures added ==> vehicleCount == old(vehicleCount) + 1 && blocks == old(blocks) + [old(vehicleCount)]
      ensures accountType != "Fleet" && old(|blocks|) <= MaxCustomerVehicles ==> |blocks| <= MaxCustomerVehicles
    {
      if !CanAdd(accountType, vehicleCount) {
        return false;
      }
      var idx := vehicleCount;
      vehicleCount := vehicleCount + 1;
      blocks := blocks + [idx];
      added := true;
    }

    /** The remove button of the block at page position `pos`: the block
        goes and the counter goes down by one. */
    method Remove(pos: nat)
      requires Valid() && pos < |blocks|
      modifies this
      ensures Valid() && accountType == old(accountType)
      ensures vehicleCount == old(vehicleCount) - 1
      ensures blocks == old(blocks)[..pos] + old(blocks)[pos + 1..]
    {
      blocks := blocks[..pos] + blocks[pos + 1..];
      vehicleCount := vehicleCount - 1;
    }
  }

  /** Three additions, removal of the first block and one more addition:
      the page ends with two blocks numbered 2, whose fields share the
      names `vehicles[2][...]`. */
  method ReusedIndex() returns (blocks: seq<int>)
    ensures blocks == [1, 2, 2]
    ensures blocks[1] == blocks[2]
  {
    var form := new VehicleBlocks("Customer");
    var a := form.Add();
    a := form.Add();
    a := form.Add();
    form.Remove(0);
    a := form.Add();
    blocks := form.blocks;
  }

  // ---- vehicle blocks, with distinct field indices -----------------------------------------

  /** No index appears twice. */
  predicate Distinct(xs: seq<int>) {
    forall i, j :: 0 <= i < j < |xs| ==> xs[i] != xs[j]
  }

  /** The same form with the number of the next block kept apart from the
      count of blocks, so that a removal never makes an index come back. */
  class NumberedVehicleBlocks {
    var accountType: string
    var vehicleCount: int
    var nextIndex: int
    var blocks: seq<int>

    /** The counter is the number of blocks, and every block has its own
        index below `nextIndex`. */
    predicate Valid()
      reads this
    {
      vehicleCount == |blocks| && Distinct(blocks) && nextIndex >= 0
      && forall k :: 0 <= k < |blocks| ==> 0 <= blocks[k] < nextIndex
    }

    constructor (accountType: string)
      ensures Valid() && this.accountType == accountType && blocks == [] && nextIndex == 0
    {
      this.accountType := accountType;
      vehicleCount := 0;
      nextIndex := 0;
      blocks := [];
    }

    method SetAccountType(t: string)
      modifies this
      ensures accountType == t && vehicleCount == old(vehicleCount) && blocks == old(blocks)
      ensures nextIndex == old(nextIndex)
    {
      accountType := t;
    }

    /** Adds a block numbered with `nextIndex`, under the same limit. */
    method Add() returns (added: bool)
      requires Valid()
      modifies this
      ensures Valid() && accountType == old(accountType)
      ensures added <==> CanAdd(accountType, old(vehicleCount))
      ensures !added ==> vehicleCount == old(vehicleCount) && blocks == old(blocks) && nextIndex == old(nextIndex)
      ensures added ==> vehicleCount == old(vehicleCount) + 1 && blocks == old(blocks) + [old(nextIndex)]
                        && nextIndex == old(nextIndex) + 1
    {
      if !CanAdd(accountType, vehicleCount) {
        return false;
      }
      ghost var bs := blocks;
      var idx := nextIndex;
      nextIndex := nextIndex + 1;
      vehicleCount := vehicleCount + 1;
      blocks := blocks + [idx];
      assert forall k :: 0 <= k < |bs| ==> blocks[k] == bs[k] < idx;
      added := true;
    }

    method Remove(pos: nat)
      requires Valid() && pos < |blocks|
      modifies this
      ensures Valid() && accountType == old(accountType) && nextIndex == old(nextIndex)
      ensures vehicleCount == old(vehicleCount) - 1
      ensures blocks == old(blocks)[..pos] + old(blocks)[pos + 1..]
    {
      ghost var bs := blocks;
      blocks := blocks[..pos] + blocks[pos + 1..];
      vehicleCount := vehicleCount - 1;
      assert forall k :: 0 <= k < |blocks| ==> blocks[k] == bs[if k < pos then k else k + 1];
    }
  }

  /** The same sequence of clicks leaves blocks with distinct indices. */
  method DistinctIndices() returns (blocks: seq<int>)
    ensures blocks == [1, 2, 3] && Distinct(blocks)
  {
    var form := new NumberedVehicleBlocks("Customer");
    var a := form.Add();
    a := form.Add();
    a := form.Add();
    form.Remove(0);
    a := form.Add();
    blocks := form.blocks;
  }
}
