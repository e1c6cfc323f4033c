/** The settings store behind the page: the browser's localStorage, of which
    the page uses the one key StorageKey, and the handlers that read and
    write it. */
module Settings {
  import opened Wrappers
  import opened JsString
  import opened Domain
  import opened Share

  /** The localStorage key under which the base domain is kept. */
  const StorageKey: string := "archive_share_base_domain"

  class SettingsStore {
    /** The origin's localStorage: every key and its string value. */
    var items: map<string, string>

    /** A store that holds what the origin's localStorage held at load. */
    constructor (initial: map<string, string>)
      ensures items == initial
    {
      items := initial;
    }

    /** The stored domain has the shape setBaseDomain gives it. Another page
        of the origin could write anything there, so no operation requires
        this; they all keep it. */
    predicate Valid()
      reads this
    {
      StorageKey in items ==> items[StorageKey] != "" && StartsWith(items[StorageKey], "http")
    }

    /** getBaseDomain: the stored domain when the key is present and its
        value non-empty, the default otherwise. Never empty, and a URL
        beginning with "http" whenever the store is valid. */
    function GetBaseDomain(): (r: string)
      reads this
      ensures StorageKey in items && items[StorageKey] != "" ==> r == items[StorageKey]
      ensures StorageKey !in items || items[StorageKey] == "" ==> r == DefaultDomain
      ensures r != ""
      ensures Valid() ==> StartsWith(r, "http")
    {
      assert StartsWith(DefaultDomain, "http") by { assert DefaultDomain[..4] == "http"; }
      if StorageKey in items && items[StorageKey] != "" then items[StorageKey] else DefaultDomain
    }

    /** setBaseDomain: normalises the entered domain step by step, stores the
        result under the key and returns it. Only that key changes, and a
        following getBaseDomain returns what was stored. */
    method SetBaseDomain(domain: string) returns (clean: string)
      modifies this
      ensures clean == Normalized(domain)
      ensures items == old(items)[StorageKey := clean]
      ensures GetBaseDomain() == clean
      ensures Valid()
    {
      var cleanDomain := Trim(domain);
      if !StartsWith(cleanDomain, "http") {
        cleanDomain := "https://" + cleanDomain;
      }
      if EndsWith(cleanDomain, "/") {
        cleanDomain := cleanDomain[..|cleanDomain| - 1];
      }
      NormalizedStartsWithHttp(domain);
      items := items[StorageKey := cleanDomain];
      clean := cleanDomain;
    }

    /** The save button: an empty input is ignored and the store is left as
        it was; any other input, even whitespace only, is normalised and
        stored, and the stored value is returned to be shown in the form. */
    method Save(val: string) returns (saved: Option<string>)
      modifies this
      ensures val == "" ==> saved == None && items == old(items)
      ensures val != "" ==> saved == Some(Normalized(val)) && items == old(items)[StorageKey := Normalized(val)]
      ensures old(Valid()) ==> Valid()
    {
      if val != "" {
        var s := SetBaseDomain(val);
        saved := Some(s);
      } else {
        saved := None;
      }
    }

    /** The reset button: the key is removed, every other key is kept, and
        getBaseDomain falls back to the default, which is what the form then
        shows. */
    method Reset() returns (shown: string)
      modifies this
      ensures items == old(items) - {StorageKey}
      ensures GetBaseDomain() == DefaultDomain
      ensures shown == GetBaseDomain()
      ensures Valid()
    {
      items := items - {StorageKey};
      shown := DefaultDomain;
    }

    /** handleShare: the redirect it performs for the given query parameters,
        or None when it stays on the page. It redirects exactly when some
        parameter is non-empty and the chosen text holds a URL, and then to
        the current base domain followed by "/latest/" and that URL. */
    function HandleShare(text: Option<string>, url: Option<string>, title: Option<string>): (r: Option<string>)
      reads this
      ensures r.Some? <==> Truthy(SharedText(text, url, title)) && FirstUrl(SharedText(text, url, title).value).Some?
      ensures r.Some? ==>
        var target := FirstUrl(SharedText(text, url, title).value).value;
        StartsWith(r.value, GetBaseDomain() + "/latest/") &&
        r.value[|GetBaseDomain()| + 8..] == target && IsUrl(target)
    {
      ShareRedirect(GetBaseDomain(), text, url, title)
    }
  }
}
