/** Listing files: pages are fetched one by one, their entries moved into one array, and
    the user is shown the names only when all pages are there. */
module Paging {
  import opened Basics
  import opened JsonValues

  // ---- entries ----

  /** An entry has a name, and is either a file or a folder object. */
  predicate IsEntry(item: Json) {
    var file := ItemOf(item, "file", true);
    var folder := ItemOf(item, "folder", true);
    && IsText(ItemOf(item, "name", true))
    && (file.Some? <==> folder.None?)
    && (file.Some? ==> file.value.Obj?) && (folder.Some? ==> folder.value.Obj?)
  }

  predicate AllEntries(items: seq<Json>) {
    forall k :: 0 <= k < |items| ==> IsEntry(items[k])
  }

  /** How many leading items are entries. */
  function Leading(items: seq<Json>): (k: nat)
    ensures k <= |items| && AllEntries(items[..k])
    ensures k < |items| ==> !IsEntry(items[k])
  {
    if items == [] || !IsEntry(items[0]) then 0 else 1 + Leading(items[1..])
  }

  /** A cJSON array. */
  class JsonArray {
    var items: seq<Json>

    constructor (items: seq<Json>)
      ensures this.items == items
    {
      this.items := items;
    }

    method DetachFirst() returns (item: Json)
      requires items != []
      modifies this
      ensures item == old(items)[0] && items == old(items)[1..]
    {
      item, items := items[0], items[1..];
    }

    method Add(item: Json)
      modifies this
      ensures items == old(items) + [item]
    {
      items := items + [item];
    }
  }

  /** __merge_array: entries move from the front of one array to the end of the other, as
      long as they are entries; none is lost, doubled or reordered. */
  method MergeArray(sub: JsonArray, found: JsonArray) returns (ok: bool)
    requires sub != found
    modifies sub, found
    ensures var k := Leading(old(sub.items));
            sub.items == old(sub.items)[k..] && found.items == old(found.items) + old(sub.items)[..k]
    ensures ok <==> AllEntries(old(sub.items))
  {
    hide IsEntry;
    ghost var all, before := sub.items, found.items;
    var size, i := |sub.items|, 0;
    while i < size
      invariant i <= size == |all|
      invariant sub.items == all[i..] && found.items == before + all[..i]
      invariant AllEntries(all[..i])
    {
      if !IsEntry(sub.items[0]) {
        LeadingIs(all, i);
        return false;
      }
      assert all[..i + 1] == all[..i] + [all[i]];
      var item := sub.DetachFirst();
      found.Add(item);
      i := i + 1;
    }
    LeadingIs(all, i);
    assert all[..i] == all;
    return true;
  }

  lemma {:induction false} LeadingIs(items: seq<Json>, k: nat)
    requires k <= |items| && AllEntries(items[..k]) && (k < |items| ==> !IsEntry(items[k]))
    ensures Leading(items) == k
    ensures k < |items| ==> !AllEntries(items)
  {
    hide IsEntry;
    if k > 0 {
      assert items[..k][0] == items[0] && items[1..][..k - 1] == items[..k][1..];
      LeadingIs(items[1..], k - 1);
    }
  }

  // ---- pages ----

  /** The answer to a page's request: none that could be used, success with no body, which
      is moved out with no place for its length, or a page. */
  datatype Answer = NoPage | NoBody | Page(json: Json)

  /** A page's entries and the link to the next one, if both are as they should be. */
  datatype Parsed = Malformed | Last(items: seq<Json>) | Next(items: seq<Json>, link: string)

  function Parse(json: Json): Parsed {
    var value := ItemOf(json, "value", true);
    var link := ItemOf(json, "@odata.nextLink", true);
    if value.None? || !value.value.Arr? || !AllEntries(value.value.items) then Malformed
    else if link.None? then Last(value.value.items)
    else if !IsText(link) then Malformed
    else Next(value.value.items, link.value.text)
  }

  /** What makes an object an entry, a page and a name: its fields of these names. */
  lemma EntryIff(fields: seq<Field>, name: string)
    requires Holds(fields, "name", true, Str(name))
    ensures IsEntry(Obj(fields)) <==>
            && name != ""
            && (|| (HasNone(fields, "folder", true) && exists f :: Holds(fields, "file", true, Obj(f)))
                || (HasNone(fields, "file", true) && exists f :: Holds(fields, "folder", true, Obj(f))))
    ensures NameOf(Obj(fields)) == name
  {
    hide Item, Holds, HasNone;
    ItemIsFirst(fields, "name", true, Str(name));
    var file, folder := Item(fields, "file", true), Item(fields, "folder", true);
    forall f ensures file == Some(Obj(f)) <==> Holds(fields, "file", true, Obj(f)) {
      ItemIsFirst(fields, "file", true, Obj(f));
    }
    forall f ensures folder == Some(Obj(f)) <==> Holds(fields, "folder", true, Obj(f)) {
      ItemIsFirst(fields, "folder", true, Obj(f));
    }
    ItemIsFirst(fields, "file", true, Other);
    ItemIsFirst(fields, "folder", true, Other);
    if IsEntry(Obj(fields)) {
      if file.Some? {
        assert file == Some(Obj(file.value.fields));
      } else {
        assert folder == Some(Obj(folder.value.fields));
      }
    }
  }

  /** An object without a name is no entry. */
  lemma NamelessIsNoEntry(fields: seq<Field>)
    requires HasNone(fields, "name", true)
    ensures !IsEntry(Obj(fields))
  {
    hide Item, HasNone;
    ItemIsFirst(fields, "name", true, Other);
  }

  /** An object is a page exactly when its field "value" is an array of entries and its field
      "@odata.nextLink", if there is one, a text that is not empty; that is the link. */
  lemma PageIs(fields: seq<Field>, value: Json, link: Option<Json>)
    requires Holds(fields, "value", true, value)
    requires if link.None? then HasNone(fields, "@odata.nextLink", true)
             else Holds(fields, "@odata.nextLink", true, link.value)
    ensures Parse(Obj(fields)) ==
            if !value.Arr? || exists k :: 0 <= k < |value.items| && !IsEntry(value.items[k]) then Malformed
            else match link
                 case None => Last(value.items)
                 case Some(l) => if l.Str? && l.text != "" then Next(value.items, l.text) else Malformed
  {
    hide Item, Holds, HasNone, IsEntry;
    ItemIsFirst(fields, "value", true, value);
    ItemIsFirst(fields, "@odata.nextLink", true, if link.Some? then link.value else Other);
  }

  /** And one without that array is none. */
  lemma NoArrayNoPage(fields: seq<Field>)
    requires HasNone(fields, "value", true)
    ensures Parse(Obj(fields)) == Malformed
  {
    hide Item, HasNone;
    ItemIsFirst(fields, "value", true, Other);
  }

  /** The entries of all pages, or nothing if one is missing or malformed; the URLs that are
      asked for; and whether an empty body ended it in undefined behaviour. */
  datatype Fetched = Fetched(items: Option<seq<Json>>, urls: seq<string>, nullWrite: bool)

  function Fetch(url: string, found: seq<Json>, answers: seq<Answer>): Fetched
    decreases |answers|
  {
    if answers == [] || answers[0].NoPage? then Fetched(None, [url], false)
    else if answers[0].NoBody? then Fetched(None, [url], true)
    else
      match Parse(answers[0].json)
      case Malformed => Fetched(None, [url], false)
      case Last(items) => Fetched(Some(found + items), [url], false)
      case Next(items, link) =>
        var rest := Fetch(link, found + items, answers[1..]);
        rest.(urls := [url] + rest.urls)
  }

  function NameOf(item: Json): string {
    var name := ItemOf(item, "name", true);
    if IsStr(name) then name.value.text else ""
  }

  /** Shown the names so far, does the user want more? */
  type Callback = seq<string> -> bool

  /** What the user is shown: the names in order and the closing NULL, or the names up to
      the one after which no more are wanted. */
  datatype Shown = Shown(names: seq<string>, closed: bool)

  function Show(items: seq<Json>, wants: Callback, names: seq<string>): Shown {
    if items == [] then Shown(names, true)
    else
      var seen := names + [NameOf(items[0])];
      if wants(seen) then Show(items[1..], wants, seen) else Shown(seen, false)
  }

  /** list_files and __notify_user_files. A request with no answer left fails. */
  method ListFiles(first: string, answers: seq<Answer>, wants: Callback)
    returns (ok: bool, shown: Shown, urls: seq<string>, nullWrite: bool)
    ensures var f := Fetch(first, [], answers);
            && urls == f.urls && (ok <==> f.items.Some?) && nullWrite == f.nullWrite
            && shown == if ok then Show(f.items.value, wants, []) else Shown([], false)
  {
    hide IsEntry, AllEntries, Parse;
    var found := new JsonArray([]);
    var url, k := first, 0;
    urls, shown, nullWrite := [], Shown([], false), false;
    assert answers[0..] == answers;
    while true
      invariant k <= |answers| && fresh(found)
      invariant var f := Fetch(first, [], answers); var g := Fetch(url, found.items, answers[k..]);
                f.items == g.items && f.urls == urls + g.urls && f.nullWrite == g.nullWrite
      decreases |answers| - k
    {
      urls := urls + [url];
      if k == |answers| || answers[k].NoPage? { return false, shown, urls, false; }
      if answers[k].NoBody? { return false, shown, urls, true; }
      assert answers[k..][0] == answers[k] && answers[k..][1..] == answers[k + 1..];
      var parsed, link := TakePage(answers[k].json, found);
      if !parsed { return false, shown, urls, false; }
      if link.None? { break; }
      url, k := link.value, k + 1;
    }
    shown := NotifyUser(found.items, wants);
    ok := true;
  }

  /** One page: its entries join the array, and its link is read. */
  method TakePage(json: Json, found: JsonArray) returns (ok: bool, link: Option<string>)
    modifies found
    ensures match Parse(json)
            case Malformed => !ok
            case Last(items) => ok && link == None && found.items == old(found.items) + items
            case Next(items, l) => ok && link == Some(l) && found.items == old(found.items) + items
  {
    hide IsEntry;
    var value := ItemOf(json, "value", true);
    link := None;
    if value.None? || !value.value.Arr? { return false, None; }
    var sub := new JsonArray(value.value.items);
    ok := MergeArray(sub, found);
    if !ok { return; }
    LeadingIs(value.value.items, |value.value.items|);
    var next := ItemOf(json, "@odata.nextLink", true);
    if next.Some? {
      if !IsText(next) { return false, None; }
      link := Some(next.value.text);
    }
  }

  method NotifyUser(items: seq<Json>, wants: Callback) returns (shown: Shown)
    ensures shown == Show(items, wants, [])
  {
    var names, k := [], 0;
    assert items[0..] == items;
    while k < |items|
      invariant k <= |items|
      invariant Show(items, wants, []) == Show(items[k..], wants, names)
    {
      assert items[k..][1..] == items[k + 1..];
      names := names + [NameOf(items[k])];
      if !wants(names) { return Shown(names, false); }
      k := k + 1;
    }
    return Shown(names, true);
  }

  // ---- all or nothing ----

  /** A chain of pages: each but the last has a link. */
  predicate IsChain(answers: seq<Answer>) {
    && answers != []
    && (forall k :: 0 <= k < |answers| ==> answers[k].Page? && !Parse(answers[k].json).Malformed?)
    && (forall k :: 0 <= k < |answers| ==> (Parse(answers[k].json).Last? <==> k == |answers| - 1))
  }

  function ItemsOf(answers: seq<Answer>): seq<Json>
    requires forall k :: 0 <= k < |answers| ==> answers[k].Page? && !Parse(answers[k].json).Malformed?
  {
    if answers == [] then [] else Parse(answers[0].json).items + ItemsOf(answers[1..])
  }

  /** The requests of a chain: the first URL, then each page's link. */
  function UrlsOf(first: string, answers: seq<Answer>): seq<string>
    requires IsChain(answers)
    decreases |answers|
  {
    if |answers| == 1 then [first]
    else
      assert IsChain(answers[1..]);
      [first] + UrlsOf(Parse(answers[0].json).link, answers[1..])
  }

  /** A chain is fetched whole, in order, by following its links. */
  lemma {:induction false} ChainIsFetched(url: string, found: seq<Json>, answers: seq<Answer>)
    requires IsChain(answers)
    ensures Fetch(url, found, answers) == Fetched(Some(found + ItemsOf(answers)), UrlsOf(url, answers), false)
    decreases |answers|
  {
    hide Parse;
    var p := Parse(answers[0].json);
    if |answers| > 1 {
      assert IsChain(answers[1..]);
      ChainIsFetched(p.link, found + p.items, answers[1..]);
      assert found + p.items + ItemsOf(answers[1..]) == found + ItemsOf(answers);
    } else {
      assert p.Last? && ItemsOf(answers[1..]) == [];
      assert p.items + [] == p.items;
    }
  }

  /** Whatever is fetched is a chain at the front of the answers. */
  lemma {:induction false} FetchedIsChain(url: string, found: seq<Json>, answers: seq<Answer>) returns (n: nat)
    requires Fetch(url, found, answers).items.Some?
    ensures n <= |answers| && IsChain(answers[..n])
    ensures Fetch(url, found, answers).items == Some(found + ItemsOf(answers[..n]))
    decreases |answers|
  {
    hide Parse;
    var p := Parse(answers[0].json);
    if p.Last? {
      n := 1;
    } else {
      var m := FetchedIsChain(p.link, found + p.items, answers[1..]);
      n := m + 1;
      assert answers[..n] == [answers[0]] + answers[1..][..m];
      assert forall k :: 1 <= k < n ==> answers[..n][k] == answers[1..][..m][k - 1];
    }
    ChainIsFetched(url, found, answers[..n]);
    LongerAnswers(url, found, answers[..n], answers);
  }

  lemma {:induction false} LongerAnswers(url: string, found: seq<Json>, chain: seq<Answer>, answers: seq<Answer>)
    requires IsChain(chain) && chain <= answers
    ensures Fetch(url, found, answers) == Fetch(url, found, chain)
    decreases |chain|
  {
    hide Parse;
    var p := Parse(chain[0].json);
    if |chain| > 1 {
      assert IsChain(chain[1..]);
      LongerAnswers(p.link, found + p.items, chain[1..], answers[1..]);
    }
  }

  /** The listing is undefined exactly when an empty body follows pages that all have links. */
  lemma {:induction false} NullWriteIff(url: string, found: seq<Json>, answers: seq<Answer>)
    ensures Fetch(url, found, answers).nullWrite <==>
            exists n :: 0 <= n < |answers| && answers[n].NoBody? && AllNext(answers[..n])
    decreases |answers|
  {
    hide Parse;
    if answers != [] && answers[0].Page? && Parse(answers[0].json).Next? {
      var rest := answers[1..];
      NullWriteIff(Parse(answers[0].json).link, found + Parse(answers[0].json).items, rest);
      forall n | 0 <= n < |rest| ensures AllNext(answers[..n + 1]) == AllNext(rest[..n]) {
        var front := answers[..n + 1];
        assert front[0] == answers[0] && front[1..] == rest[..n];
        assert forall k :: 1 <= k < |front| ==> front[k] == front[1..][k - 1];
        assert forall k :: 0 <= k < n ==> rest[..n][k] == front[k + 1];
      }
      if n :| 0 <= n < |rest| && rest[n].NoBody? && AllNext(rest[..n]) {
        assert answers[n + 1].NoBody? && AllNext(answers[..n + 1]);
      }
      forall n | 0 <= n < |answers| && answers[n].NoBody? && AllNext(answers[..n])
        ensures n > 0 && rest[n - 1].NoBody? && AllNext(rest[..n - 1])
      {
        assert AllNext(answers[..n - 1 + 1]) == AllNext(rest[..n - 1]);
      }
    } else if answers != [] && answers[0].NoBody? {
      assert answers[..0] == [] && AllNext(answers[..0]);
    } else if answers != [] {
      forall n | 0 < n < |answers| ensures !AllNext(answers[..n]) {
        assert answers[..n][0] == answers[0];
      }
    }
  }

  predicate AllNext(answers: seq<Answer>) {
    forall k :: 0 <= k < |answers| ==> answers[k].Page? && Parse(answers[k].json).Next?
  }

  /** The names of the items, the closing NULL only if all were wanted. */
  lemma {:induction false} ShowsNames(items: seq<Json>, wants: Callback, names: seq<string>)
    ensures var s := Show(items, wants, names);
            && names <= s.names && |s.names| <= |names| + |items|
            && (forall k :: |names| <= k < |s.names| ==> s.names[k] == NameOf(items[k - |names|]))
            && (s.closed ==> |s.names| == |names| + |items|)
            && (forall k :: |names| < k < |s.names| ==> wants(s.names[..k]))
            && (!s.closed ==> |s.names| > |names| && !wants(s.names))
            && (s.closed && items != [] ==> wants(s.names))
    decreases |items|
  {
    hide NameOf;
    if items != [] {
      var seen := names + [NameOf(items[0])];
      if wants(seen) {
        ShowsNames(items[1..], wants, seen);
        var s := Show(items[1..], wants, seen);
        assert s.names[|names|] == seen[|names|];
        assert s.names[..|seen|] == seen;
      }
    }
  }
}
