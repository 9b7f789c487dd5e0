/**
  The search both module loops make over their files: the index of the
  first file whose flag says it aborts the module. Each module supplies its
  own flags.
 */
module FirstIndex {
  import opened Wrappers

  /** The index of the first `true` flag, if any. */
  function First(flags: seq<bool>): (r: Option<nat>)
    ensures r.Some? ==> r.value < |flags| && flags[r.value]
    decreases |flags|
  {
    if flags == [] then None
    else match First(flags[..|flags| - 1])
      case Some(k) => Some(k)
      case None => if flags[|flags| - 1] then Some(|flags| - 1) else None
  }

  /** `First` finds exactly the first `true` flag. */
  lemma {:induction false} FirstSpec(flags: seq<bool>)
    ensures First(flags).None? <==> forall i :: 0 <= i < |flags| ==> !flags[i]
    ensures First(flags).Some? ==> forall i :: 0 <= i < First(flags).value ==> !flags[i]
    decreases |flags|
  {
    if flags != [] {
      var init := flags[..|flags| - 1];
      FirstSpec(init);
      assert forall i :: 0 <= i < |init| ==> init[i] == flags[i];
    }
  }

  /** The flags are looked at in order: one more flag only matters while none was `true`. */
  lemma FirstSnoc(flags: seq<bool>, i: nat)
    requires i < |flags|
    ensures First(flags[..i + 1])
      == if First(flags[..i]).Some? then First(flags[..i])
         else if flags[i] then Some(i)
         else None
  {
    assert flags[..i + 1][..i] == flags[..i];
  }

  /** Once a prefix has a `true` flag, later flags do not change which one is first. */
  lemma {:induction false} FirstPrefix(flags: seq<bool>, k: nat)
    requires k <= |flags| && First(flags[..k]).Some?
    ensures First(flags) == First(flags[..k])
    decreases |flags| - k
  {
    if k < |flags| {
      FirstSnoc(flags, k);
      FirstPrefix(flags, k + 1);
    } else {
      assert flags[..k] == flags;
    }
  }
}
