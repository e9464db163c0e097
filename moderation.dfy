/**
 * The moderation panel of src/components/AdminPanel.tsx: the ban form, whose submit
 * trims both inputs and fills in a default reason, and the banned-users list.
 */
module Moderation {
  import opened Wrappers
  import opened Text

  /** `BannedUser`, a record of the list the panel is given. */
  datatype BannedUser = BannedUser(id: int, name: string, reason: string, date: string)

  /** The arguments of `onBanUser`. */
  datatype BanRequest = BanRequest(name: string, reason: string)

  datatype PanelTab = BanTab | ListTab

  /** The reason passed when the reason input is blank. */
  const DefaultReason := "Нарушение правил"

  lemma DefaultReasonTrimmed()
    ensures DefaultReason != [] && Trim(DefaultReason) == DefaultReason
  {
    assert !IsSpace(DefaultReason[0]);
    assert !IsSpace(DefaultReason[|DefaultReason| - 1]);
  }

  /**
   * What `handleBan` hands to `onBanUser`: nothing for a blank name, otherwise the trimmed
   * name with the trimmed reason, or with the default reason when the reason is blank.
   */
  function NormalizeBan(banName: string, banReason: string): (r: Option<BanRequest>)
    ensures r.None? <==> AllSpace(banName)
    ensures r.Some? ==> r.value.name == Trim(banName) && r.value.name != []
    ensures r.Some? ==> r.value.reason == if AllSpace(banReason) then DefaultReason else Trim(banReason)
  {
    TrimEmptyIff(banName);
    TrimEmptyIff(banReason);
    if Trim(banName) == [] then None
    else Some(BanRequest(Trim(banName), if Trim(banReason) != [] then Trim(banReason) else DefaultReason))
  }

  /**
   * A request is normalised: both fields are non-empty and already trimmed, so submitting
   * them again would produce the same request.
   */
  lemma BanRequestNormalized(banName: string, banReason: string)
    requires NormalizeBan(banName, banReason).Some?
    ensures var req := NormalizeBan(banName, banReason).value;
      && req.name != [] && Trim(req.name) == req.name
      && req.reason != [] && Trim(req.reason) == req.reason
      && NormalizeBan(req.name, req.reason) == Some(req)
  {
    var req := NormalizeBan(banName, banReason).value;
    TrimIdempotent(banName);
    assert Trim(req.name) == req.name;
    if AllSpace(banReason) {
      DefaultReasonTrimmed();
    } else {
      TrimIdempotent(banReason);
      TrimEmptyIff(banReason);
    }
    assert req.reason != [] && Trim(req.reason) == req.reason;
    assert NormalizeBan(req.name, req.reason) == Some(BanRequest(req.name, req.reason));
  }

  /** `disabled={!banName.trim()}`: the button is disabled exactly for a blank name. */
  function BanButtonDisabled(banName: string): (r: bool)
    ensures r <==> AllSpace(banName)
  {
    TrimEmptyIff(banName);
    Trim(banName) == []
  }

  /** The button is disabled exactly when a submit would be ignored, whatever the reason says. */
  lemma ButtonDisabledIff(banName: string, banReason: string)
    ensures BanButtonDisabled(banName) <==> NormalizeBan(banName, banReason).None?
  {
    TrimEmptyIff(banName);
  }

  /**
   * The badge on the list tab: the list's length, shown only when the list is not empty.
   * The list tab's "Нет заблокированных" notice takes the place of the rows exactly when
   * there is no badge.
   */
  function Badge(bannedUsers: seq<BannedUser>): (r: Option<nat>)
    ensures r.Some? <==> bannedUsers != []
    ensures r.Some? ==> r.value == |bannedUsers| && r.value > 0
  {
    if |bannedUsers| > 0 then Some(|bannedUsers|) else None
  }

  /** The ids the list's unban buttons pass to `onUnbanUser`, one per row in list order. */
  function UnbanTargets(bannedUsers: seq<BannedUser>): (r: seq<int>)
    ensures |r| == |bannedUsers|
    ensures forall i :: 0 <= i < |r| ==> r[i] == bannedUsers[i].id
  {
    if bannedUsers == [] then [] else [bannedUsers[0].id] + UnbanTargets(bannedUsers[1..])
  }

  /** The panel's form state. */
  class BanForm {
    var banName: string
    var banReason: string
    var tab: PanelTab

    constructor ()
      ensures banName == [] && banReason == [] && tab == BanTab
    {
      banName := [];
      banReason := [];
      tab := BanTab;
    }

    /** The name input's `onChange`. */
    method SetName(v: string)
      modifies this
      ensures banName == v && banReason == old(banReason) && tab == old(tab)
    {
      banName := v;
    }

    /** The reason input's `onChange`. */
    method SetReason(v: string)
      modifies this
      ensures banReason == v && banName == old(banName) && tab == old(tab)
    {
      banReason := v;
    }

    /** A tab button. */
    method SelectTab(t: PanelTab)
      modifies this
      ensures tab == t && banName == old(banName) && banReason == old(banReason)
    {
      tab := t;
    }

    /**
     * `handleBan`: hand the normalised request to `onBanUser` and clear both inputs, or do
     * nothing at all when the name is blank.
     */
    method Ban() returns (request: Option<BanRequest>)
      modifies this
      ensures request == NormalizeBan(old(banName), old(banReason))
      ensures request.Some? ==> banName == [] && banReason == []
      ensures request.None? ==> banName == old(banName) && banReason == old(banReason)
      ensures tab == old(tab)
    {
      var name := Trim(banName);
      if name == [] {
        return None;
      }
      var reason := Trim(banReason);
      if reason == [] {
        reason := DefaultReason;
      }
      request := Some(BanRequest(name, reason));
      assert request == NormalizeBan(banName, banReason);
      banName := [];
      banReason := [];
    }
  }
}
