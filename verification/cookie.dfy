/** Reading the HubSpot tracking cookie `hubspotutk` out of a `document.cookie` string, which
    associates a form submission with the visitor's session. */
module Cookie {
  import opened Wrappers
  import opened JsString

  const TRACKING_COOKIE := "hubspotutk"

  /** One `;`-separated entry after `trim()` and `split('=')` into `[name, value]`. */
  datatype Entry = Entry(name: string, value: Option<string>)

  /** The `name` half of an entry: the trimmed entry up to its first '='. */
  function EntryName(raw: string): string {
    var t := Trim(raw);
    t[..IndexOf(t, '=')]
  }

  /** The destructuring `[name, value] = entry.trim().split('=')`: the name is everything before
      the first '='; the value is missing (`undefined`) when there is no '=', and otherwise runs
      from the first '=' to the next one or to the end. */
  function ParseEntry(raw: string): (e: Entry)
    ensures var t := Trim(raw);
      var k := IndexOf(t, '=');
      && e.name == t[..k]
      && (e.value.None? <==> k == |t|)
      && (e.value.Some? ==> var rest := t[k + 1..]; e.value.value == rest[..IndexOf(rest, '=')])
  {
    var t := Trim(raw);
    var kv := Split(t, '=');
    SplitAtFirst(t, '=');
    SplitSingle(t, '=');
    if |kv| > 1 then
      SplitSecond(t, '=');
      Entry(kv[0], Some(kv[1]))
    else
      Entry(kv[0], None)
  }

  /** Whether the entry is named `hubspotutk`. */
  predicate IsTracking(entry: string) {
    EntryName(entry) == TRACKING_COOKIE
  }

  /** The position of the first entry named `hubspotutk`, or the number of entries when none is. */
  function TrackingIndex(entries: seq<string>): (k: nat)
    ensures k <= |entries|
    ensures forall j :: 0 <= j < k ==> !IsTracking(entries[j])
    ensures k < |entries| ==> IsTracking(entries[k])
  {
    if entries == [] || IsTracking(entries[0]) then 0
    else
      var k := 1 + TrackingIndex(entries[1..]);
      assert forall j :: 1 <= j < k ==> entries[j] == entries[1..][j - 1];
      k
  }

  /** The `for … of` loop over the entries, returning from inside it: the first entry named
      `hubspotutk` decides the result, even when it has no '=' and so no value; with no such
      entry the result is missing. */
  function FindTracking(entries: seq<string>): (r: Option<string>)
    ensures var k := TrackingIndex(entries);
      r == if k < |entries| then ParseEntry(entries[k]).value else None
  {
    if entries == [] then None
    else if IsTracking(entries[0]) then ParseEntry(entries[0]).value
    else
      var r := FindTracking(entries[1..]);
      assert entries[1..][TrackingIndex(entries) - 1..] == entries[TrackingIndex(entries)..];
      r
  }

  /** `getHubSpotCookie`: missing when there is no document (server-side rendering), otherwise
      decided by the first entry of `document.cookie.split(';')` named `hubspotutk`. */
  function GetHubSpotCookie(document: Option<string>): (r: Option<string>)
    ensures document.None? ==> r.None?
    ensures document.Some? ==>
      var entries := Split(document.value, ';');
      var k := TrackingIndex(entries);
      && (forall j :: 0 <= j < k ==> !IsTracking(entries[j]))
      && (k < |entries| ==> IsTracking(entries[k]) && r == ParseEntry(entries[k]).value)
      && (k == |entries| ==> r.None?)
  {
    match document
    case None => None
    case Some(cookie) => FindTracking(Split(cookie, ';'))
  }

  /** A tracking value found in the cookie never holds a ';' or an '='. */
  lemma TrackingValueIsPlain(document: Option<string>)
    ensures var r := GetHubSpotCookie(document); r.Some? ==> ';' !in r.value && '=' !in r.value
  {
    var r := GetHubSpotCookie(document);
    if r.Some? {
      var entries := Split(document.value, ';');
      var k := TrackingIndex(entries);
      EntryValueFromEntry(entries[k]);
      assert ';' !in entries[k];
    }
  }

  /** An entry's value holds no '=' and only characters of the entry. */
  lemma EntryValueFromEntry(raw: string)
    ensures var e := ParseEntry(raw);
      e.value.Some? ==> '=' !in e.value.value && forall c :: c in e.value.value ==> c in raw
  {
    var e := ParseEntry(raw);
    if e.value.Some? {
      var t := Trim(raw);
      var k := IndexOf(t, '=');
      var rest := t[k + 1..];
      SliceChars(rest, 0, IndexOf(rest, '='));
      assert rest[0..IndexOf(rest, '=')] == e.value.value;
      SliceChars(t, k + 1, |t|);
      TrimChars(raw);
    }
  }
}
