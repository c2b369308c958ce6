/**
 * The popup's module-level state and the event handlers that change it.
 * Storage writes, toasts and re-rendering that the handlers also trigger are
 * not part of this model; the visible list is a function of the state.
 */
module Popup {
  import opened Wrappers
  import opened Sequences
  import opened Logins
  import opened LoginFilter

  /** The popup's options record: the auto-login switch and the remote URL. */
  datatype Options = Options(autoLogin: bool, remoteUrl: string)

  class AppState {
    var remoteLogins: seq<Login>
    var customLogins: seq<Login>
    var search: string
    var activeFilters: map<string, string>
    var autoLogin: bool
    var remoteUrl: string

    /** The state when the popup script is loaded. */
    constructor ()
      ensures remoteLogins == [] && customLogins == [] && search == "" && activeFilters == map[]
      ensures !autoLogin && remoteUrl == ""
    {
      remoteLogins, customLogins, search, activeFilters := [], [], "", map[];
      autoLogin, remoteUrl := false, "";
    }

    /** What `updateDisplay` renders for the current state. */
    function VisibleLogins(): (visible: seq<Login>)
      reads this
      ensures IsSubsequence(visible, remoteLogins + customLogins)
      ensures forall i :: 0 <= i < |visible| ==>
        MatchesSearch(visible[i], search) && MatchesFilters(visible[i], activeFilters)
    {
      VisibleIsFilteredSubsequence(remoteLogins, customLogins, search, activeFilters);
      Visible(remoteLogins, customLogins, search, activeFilters)
    }

    /** The select element of category `name` changed to `value` ("" is the label option). */
    method SelectChange(name: string, value: string)
      modifies this
      ensures activeFilters == if value == "" then old(activeFilters) - {name} else old(activeFilters)[name := value]
      ensures activeFilters - {name} == old(activeFilters) - {name}
      ensures value != "" && name !in old(activeFilters) ==> IsSubsequence(VisibleLogins(), old(VisibleLogins()))
      ensures value == "" ==> IsSubsequence(old(VisibleLogins()), VisibleLogins())
      ensures remoteLogins == old(remoteLogins) && customLogins == old(customLogins) && search == old(search)
      ensures autoLogin == old(autoLogin) && remoteUrl == old(remoteUrl)
    {
      ghost var before := activeFilters;
      if value == "" {
        activeFilters := activeFilters - {name};
        VisibleMonotone(remoteLogins, customLogins, search, activeFilters, before);
      } else {
        activeFilters := activeFilters[name := value];
        if name !in before {
          VisibleMonotone(remoteLogins, customLogins, search, before, activeFilters);
        }
      }
    }

    /** The search input's `oninput`. */
    method SearchInput(value: string)
      modifies this
      ensures search == value
      ensures remoteLogins == old(remoteLogins) && customLogins == old(customLogins)
      ensures activeFilters == old(activeFilters) && autoLogin == old(autoLogin) && remoteUrl == old(remoteUrl)
    {
      search := value;
    }

    /**
     * The upload reader's `load` handler. `parsed` is the file's JSON when it
     * is an array; `None` covers an empty file, a parse error and a non-array
     * value, all of which leave the state as it was.
     */
    method Upload(parsed: Option<seq<Login>>)
      modifies this
      ensures customLogins == if parsed.Some? then old(customLogins) + parsed.value else old(customLogins)
      ensures parsed.Some? ==> VisibleLogins() == old(VisibleLogins()) + Visible([], parsed.value, search, activeFilters)
      ensures remoteLogins == old(remoteLogins) && search == old(search) && activeFilters == old(activeFilters)
      ensures autoLogin == old(autoLogin) && remoteUrl == old(remoteUrl)
    {
      if parsed.Some? {
        VisibleAppendCustom(remoteLogins, customLogins, parsed.value, search, activeFilters);
        customLogins := customLogins + parsed.value;
      }
    }

    /** The "delete custom logins" button. */
    method DeleteCustomLogins()
      modifies this
      ensures customLogins == []
      ensures VisibleLogins() == Filter(Filter(remoteLogins, SearchPredicate(search)), FiltersPredicate(activeFilters))
      ensures remoteLogins == old(remoteLogins) && search == old(search) && activeFilters == old(activeFilters)
      ensures autoLogin == old(autoLogin) && remoteUrl == old(remoteUrl)
    {
      customLogins := [];
      assert remoteLogins + customLogins == remoteLogins;
    }

    /** `syncFromRemoteUrl`: `fetched` is the response body, `None` when the fetch or the JSON parse failed. */
    method SyncFromRemoteUrl(fetched: Option<seq<Login>>)
      modifies this
      ensures remoteLogins == if fetched.Some? then fetched.value else old(remoteLogins)
      ensures customLogins == old(customLogins) && search == old(search) && activeFilters == old(activeFilters)
      ensures autoLogin == old(autoLogin) && remoteUrl == old(remoteUrl)
    {
      if fetched.Some? {
        remoteLogins := fetched.value;
      }
    }

    /** The sync button: an empty URL does nothing; otherwise the URL is kept and synced. */
    method SyncButtonClick(url: string, fetched: Option<seq<Login>>)
      modifies this
      ensures remoteUrl == if url == "" then old(remoteUrl) else url
      ensures remoteLogins == if url != "" && fetched.Some? then fetched.value else old(remoteLogins)
      ensures customLogins == old(customLogins) && search == old(search) && activeFilters == old(activeFilters)
      ensures autoLogin == old(autoLogin)
    {
      if url == "" {
        return;
      }
      remoteUrl := url;
      SyncFromRemoteUrl(fetched);
    }

    /** The auto-login checkbox's `onchange`. */
    method ToggleAutoLogin(checked: bool)
      modifies this
      ensures autoLogin == checked
      ensures remoteLogins == old(remoteLogins) && customLogins == old(customLogins) && search == old(search)
      ensures activeFilters == old(activeFilters) && remoteUrl == old(remoteUrl)
    {
      autoLogin := checked;
    }

    /** `loadCustomLogins`: `stored` is what storage holds under the custom-logins key, if anything. */
    method LoadCustomLogins(stored: Option<seq<Login>>)
      modifies this
      ensures customLogins == if stored.Some? then stored.value else old(customLogins)
      ensures remoteLogins == old(remoteLogins) && search == old(search) && activeFilters == old(activeFilters)
      ensures autoLogin == old(autoLogin) && remoteUrl == old(remoteUrl)
    {
      if stored.Some? {
        customLogins := stored.value;
      }
    }

    /** `loadOptions`: stored options replace both option fields at once. */
    method LoadOptions(stored: Option<Options>)
      modifies this
      ensures autoLogin == if stored.Some? then stored.value.autoLogin else old(autoLogin)
      ensures remoteUrl == if stored.Some? then stored.value.remoteUrl else old(remoteUrl)
      ensures remoteLogins == old(remoteLogins) && customLogins == old(customLogins) && search == old(search)
      ensures activeFilters == old(activeFilters)
    {
      if stored.Some? {
        autoLogin, remoteUrl := stored.value.autoLogin, stored.value.remoteUrl;
      }
    }
  }
}
