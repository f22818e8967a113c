/** The favorite effect: whenever the selected item, the signed-in user or the
    favorite flag changes, it emits one save or delete call for the item, or
    nothing when there is no item or no user. Calls are fire-and-forget; their
    completion is not part of this model. */
module Favorites {
  import opened Options
  import opened Listings

  /** The signed-in user record, identified by its object reference: the store
      hands out a new object whenever it updates the user, and the effect's
      dependency check compares that reference, not the fields. The effect
      itself only tests that a user is present. */
  datatype UserData = UserData(ref: nat, name: string)

  /** A persistence call the effect emits. */
  datatype FavoriteAction = Save(itemId: Id) | Delete(itemId: Id)

  /** Whether an item id counts as set: present and not the falsy id 0. */
  predicate HasItem(itemId: Option<Id>)
  {
    itemId.Some? && itemId.value != 0
  }

  /** The effect's decision for one run. */
  function FavoriteDecision(itemId: Option<Id>, user: Option<UserData>, isFavorite: bool)
    : (a: Option<FavoriteAction>)
    ensures a.None? <==> !HasItem(itemId) || user.None?
    ensures a.Some? ==> a.value.itemId == itemId.value && itemId.value != 0
    ensures a.Some? ==> (a.value.Save? <==> isFavorite)
  {
    if !HasItem(itemId) || user.None? then None
    else if isFavorite then Some(Save(itemId.value))
    else Some(Delete(itemId.value))
  }

  /** The values the effect depends on, as seen at one render. */
  datatype FavoriteDeps = FavoriteDeps(itemId: Option<Id>, user: Option<UserData>, isFavorite: bool)

  function Decide(d: FavoriteDeps): Option<FavoriteAction>
  {
    FavoriteDecision(d.itemId, d.user, d.isFavorite)
  }

  /** The effect runs on the first render and on every render where the item,
      the user object or the flag differs from the previous render's. A render
      on which it does not run would have made the same decision as the render
      before it. */
  function Runs(renders: seq<FavoriteDeps>, i: nat): (runs: bool)
    requires i < |renders|
    ensures runs <==>
              i == 0
              || renders[i].itemId != renders[i - 1].itemId
              || renders[i].user != renders[i - 1].user
              || renders[i].isFavorite != renders[i - 1].isFavorite
    ensures !runs ==> i > 0 && Decide(renders[i]) == Decide(renders[i - 1])
  {
    i == 0 || renders[i] != renders[i - 1]
  }

  /** The calls emitted over a sequence of renders, in emission order. */
  function EffectActions(renders: seq<FavoriteDeps>): (actions: seq<FavoriteAction>)
    ensures |actions| <= |renders|
  {
    if |renders| == 0 then []
    else
      var n := |renders| - 1;
      var d := Decide(renders[n]);
      EffectActions(renders[..n]) + (if Runs(renders, n) && d.Some? then [d.value] else [])
  }

  /** Later renders never take back a call, and each render adds at most one:
      the calls of the first `j` renders are a prefix of those of the first `k`,
      which has at most `k - j` more. */
  lemma {:induction false} EffectActionsMonotone(renders: seq<FavoriteDeps>, j: nat, k: nat)
    requires j <= k <= |renders|
    ensures EffectActions(renders[..j]) <= EffectActions(renders[..k])
    ensures |EffectActions(renders[..k])| <= |EffectActions(renders[..j])| + (k - j)
  {
    if j < k {
      EffectActionsMonotone(renders, j, k - 1);
      assert renders[..k][..k - 1] == renders[..k - 1];
    }
  }

  /** Every emitted call is the decision of some render, so a call is only ever
      emitted for an item that was set while a user was signed in. */
  lemma {:induction false} ActionsComeFromRenders(renders: seq<FavoriteDeps>, k: nat)
    requires k < |EffectActions(renders)|
    ensures exists i :: 0 <= i < |renders| && Decide(renders[i]) == Some(EffectActions(renders)[k])
  {
    var n := |renders| - 1;
    var init := renders[..n];
    if k < |EffectActions(init)| {
      ActionsComeFromRenders(init, k);
      var i :| 0 <= i < |init| && Decide(init[i]) == Some(EffectActions(init)[k]);
      assert renders[i] == init[i];
    } else {
      assert Decide(renders[n]) == Some(EffectActions(renders)[k]);
    }
  }

  /** A re-render with unchanged dependencies (the same item, the same user
      object and the same flag) emits nothing more. */
  lemma RepeatedRenderIsSilent(renders: seq<FavoriteDeps>)
    requires |renders| > 0
    ensures EffectActions(renders + [renders[|renders| - 1]]) == EffectActions(renders)
  {
    assert (renders + [renders[|renders| - 1]])[..|renders|] == renders;
  }

  /** Renders that each change the dependencies, always with an item and a user,
      emit exactly one call per render, each render's own decision, in render
      order. */
  lemma {:induction false} OneCallPerChange(renders: seq<FavoriteDeps>)
    requires forall i :: 0 <= i < |renders| ==> HasItem(renders[i].itemId) && renders[i].user.Some?
    requires forall i :: 0 < i < |renders| ==> renders[i] != renders[i - 1]
    ensures |EffectActions(renders)| == |renders|
    ensures forall i :: 0 <= i < |renders| ==> Some(EffectActions(renders)[i]) == Decide(renders[i])
  {
    if |renders| > 0 {
      var n := |renders| - 1;
      var init := renders[..n];
      OneCallPerChange(init);
      assert Runs(renders, n);
      forall i | 0 <= i < |renders|
        ensures Some(EffectActions(renders)[i]) == Decide(renders[i])
      {
        if i < n {
          assert renders[i] == init[i];
        }
      }
    }
  }

  /** Toggling one item favorite, unfavorite, favorite emits save, delete, save
      in that order. */
  lemma ToggleEmitsInOrder(id: Id, u: UserData)
    requires id != 0
    ensures EffectActions([
              FavoriteDeps(Some(id), Some(u), true),
              FavoriteDeps(Some(id), Some(u), false),
              FavoriteDeps(Some(id), Some(u), true)])
            == [Save(id), Delete(id), Save(id)]
  {
    var rs := [
      FavoriteDeps(Some(id), Some(u), true),
      FavoriteDeps(Some(id), Some(u), false),
      FavoriteDeps(Some(id), Some(u), true)];
    OneCallPerChange(rs);
  }
}
