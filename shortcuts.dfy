/** The shortcut bar: a list of labelled links kept in browser storage, one
    global list edited by the administrator and one personal list per other
    signed-in user, with add, remove and inline edits of label and URL. */
module Shortcuts {
  import opened Prelude
  import opened Accounts
  import opened JsString

  /** A link; `caption` is the component's `label` field, a keyword in Dafny. */
  datatype Shortcut = Shortcut(id: string, caption: string, url: string)

  /** The four links shown when no global list is stored. */
  const Defaults: seq<Shortcut> := [
    Shortcut("1", "나이스", "https://www.neis.go.kr"),
    Shortcut("2", "에듀파인", "https://klef.go.kr_dummy"),
    Shortcut("3", "학교홈페이지", "http://dasu.es.kr_dummy"),
    Shortcut("4", "K-에듀파인", "https://fin.go.kr_dummy")
  ]

  const GlobalKey: string := "global_shortcuts"
  const PersonalPrefix: string := "personal_shortcuts_"

  /** `personal_shortcuts_${user.id}`: one key per user id, never the global key. */
  function PersonalKey(userId: string): (k: string)
    ensures k != GlobalKey
    ensures StartsWith(k, PersonalPrefix) && k[|PersonalPrefix|..] == userId
  {
    var k := PersonalPrefix + userId;
    assert k[0] != GlobalKey[0];
    assert k[..|PersonalPrefix|] == PersonalPrefix;
    k
  }

  /** Different users never share a personal key. */
  lemma PersonalKeyInjective(a: string, b: string)
    ensures PersonalKey(a) == PersonalKey(b) <==> a == b
  {
  }

  /** The storage entries, already parsed: a key maps to the list stored under it. */
  type Store = map<string, seq<Shortcut>>

  /** `global`: the stored global list, or the defaults when none is stored. */
  function GlobalList(items: Store): seq<Shortcut>
  {
    if GlobalKey in items then items[GlobalKey] else Defaults
  }

  predicate IsAdmin(user: Option<User>)
  {
    user.Some? && user.value.role == Admin
  }

  /** `loadShortcuts`: anonymous and administrator see the global list; any
      other user sees their personal list when one is stored, else the global list. */
  function Loaded(items: Store, user: Option<User>): seq<Shortcut>
  {
    if user.None? || user.value.role == Admin then GlobalList(items)
    else
      var key := PersonalKey(user.value.id);
      if key in items then items[key] else GlobalList(items)
  }

  /** The key `saveShortcuts` writes: the global key for the administrator,
      the personal key for any other user, none when nobody is signed in. */
  function SaveKey(user: Option<User>): (key: Option<string>)
    ensures key.None? <==> user.None?
    ensures key == Some(GlobalKey) <==> IsAdmin(user)
    ensures user.Some? && user.value.role != Admin ==> key == Some(PersonalKey(user.value.id))
  {
    if user.None? then None
    else if user.value.role == Admin then Some(GlobalKey)
    else Some(PersonalKey(user.value.id))
  }

  /** The storage after `saveShortcuts(list)`: only the save key changes, and
      it holds the new list. */
  function Saved(items: Store, user: Option<User>, list: seq<Shortcut>): (r: Store)
    ensures SaveKey(user).Some? ==> SaveKey(user).value in r && r[SaveKey(user).value] == list
    ensures forall k :: Some(k) != SaveKey(user) ==> (k in r <==> k in items)
    ensures forall k :: k in items && Some(k) != SaveKey(user) ==> r[k] == items[k]
  {
    match SaveKey(user)
    case None => items
    case Some(key) => items[key := list]
  }

  /** What is saved for a signed-in user is what they load next. */
  lemma SaveThenLoad(items: Store, user: Option<User>, list: seq<Shortcut>)
    requires user.Some?
    ensures Loaded(Saved(items, user, list), user) == list
  {
  }

  /** With nothing stored every visitor sees the four defaults. */
  lemma EmptyStoreLoadsDefaults(user: Option<User>)
    ensures Loaded(map[], user) == Defaults
  {
  }

  /** A personal save changes what its owner loads and nobody else's view. */
  lemma PersonalSaveIsPrivate(items: Store, owner: User, other: Option<User>, list: seq<Shortcut>)
    requires owner.role != Admin
    requires other.None? || other.value.role == Admin || other.value.id != owner.id
    ensures Loaded(Saved(items, Some(owner), list), other) == Loaded(items, other)
  {
    if other.Some? && other.value.role != Admin {
      PersonalKeyInjective(owner.id, other.value.id);
    }
  }

  /** An administrator save reaches the anonymous visitor, every administrator
      and every user without a personal list, and no user with one. */
  lemma AdminSaveReachesGlobalViewers(items: Store, admin: User, viewer: Option<User>, list: seq<Shortcut>)
    requires admin.role == Admin
    ensures var after := Loaded(Saved(items, Some(admin), list), viewer);
      if viewer.Some? && viewer.value.role != Admin && PersonalKey(viewer.value.id) in items
      then after == Loaded(items, viewer)
      else after == list
  {
  }

  /** `newUrl.startsWith('http') ? newUrl : 'https://' + newUrl` */
  function NormalizeUrl(url: string): (r: string)
    ensures StartsWith(r, "http") && EndsWith(r, url)
    ensures r == url <==> StartsWith(url, "http")
  {
    if StartsWith(url, "http") then url
    else
      var r := "https://" + url;
      assert r[..4] == "http";
      assert r[|r| - |url|..] == url;
      r
  }

  /** Normalising twice is normalising once. */
  lemma NormalizeUrlIdempotent(url: string)
    ensures NormalizeUrl(NormalizeUrl(url)) == NormalizeUrl(url)
  {
  }

  /** The list `addShortcut` saves, or None when the label or the URL is empty
      and nothing happens. `id` stands for the random id the component generates. */
  function WithShortcut(list: seq<Shortcut>, caption: string, url: string, id: string): (r: Option<seq<Shortcut>>)
    ensures r.None? <==> caption == "" || url == ""
    ensures r.Some? ==> |r.value| == |list| + 1 && r.value[..|list|] == list
    ensures r.Some? ==> var added := r.value[|list|];
      added.id == id && added.caption == caption && added.url == NormalizeUrl(url)
  {
    if caption == "" || url == "" then None
    else Some(list + [Shortcut(id, caption, NormalizeUrl(url))])
  }

  /** `shortcuts.filter(s => s.id !== id)`: every item with that id goes, the
      others stay in their order. */
  function Without(list: seq<Shortcut>, id: string): (r: seq<Shortcut>)
    ensures forall s :: s in r <==> s in list && s.id != id
    ensures forall s: Shortcut :: s.id != id ==> multiset(r)[s] == multiset(list)[s]
    ensures Subsequence(r, list)
  {
    var keep := (s: Shortcut) => s.id != id;
    FilterKeepsExactly(list, keep);
    Filter(list, keep)
  }

  /** Adding and then removing the new id gives the old list back, when that
      id was not in use. */
  lemma RemoveUndoesAdd(list: seq<Shortcut>, caption: string, url: string, id: string)
    requires caption != "" && url != ""
    requires forall k :: 0 <= k < |list| ==> list[k].id != id
    ensures Without(WithShortcut(list, caption, url, id).value, id) == list
  {
    var keep := (s: Shortcut) => s.id != id;
    var added := Shortcut(id, caption, NormalizeUrl(url));
    FilterAppend(list, [added], keep);
    FilterAllKept(list, keep);
    assert Filter([added], keep) == [];
  }

  /** The label edit: the label of every item with that id becomes `caption`. */
  function Relabeled(list: seq<Shortcut>, id: string, caption: string): (r: seq<Shortcut>)
    ensures |r| == |list|
  {
    seq(|list|, k requires 0 <= k < |list| => if list[k].id == id then list[k].(caption := caption) else list[k])
  }

  /** The URL edit: the URL of every item with that id becomes `url`, taken as typed. */
  function Retargeted(list: seq<Shortcut>, id: string, url: string): (r: seq<Shortcut>)
    ensures |r| == |list|
  {
    seq(|list|, k requires 0 <= k < |list| => if list[k].id == id then list[k].(url := url) else list[k])
  }

  /** A label edit keeps length, order, ids and URLs; it changes the items
      with that id and only their label. */
  lemma RelabeledChangesOnlyLabels(list: seq<Shortcut>, id: string, caption: string)
    ensures var r := Relabeled(list, id, caption);
      forall k :: 0 <= k < |list| ==>
        && r[k].id == list[k].id && r[k].url == list[k].url
        && (list[k].id == id ==> r[k].caption == caption)
        && (list[k].id != id ==> r[k] == list[k])
  {
  }

  /** A URL edit keeps length, order, ids and labels; it changes the items
      with that id and only their URL. */
  lemma RetargetedChangesOnlyUrls(list: seq<Shortcut>, id: string, url: string)
    ensures var r := Retargeted(list, id, url);
      forall k :: 0 <= k < |list| ==>
        && r[k].id == list[k].id && r[k].caption == list[k].caption
        && (list[k].id == id ==> r[k].url == url)
        && (list[k].id != id ==> r[k] == list[k])
  {
  }

  /** The last keystroke wins: two label edits of the same item amount to the second. */
  lemma RelabelLastWins(list: seq<Shortcut>, id: string, a: string, b: string)
    ensures Relabeled(Relabeled(list, id, a), id, b) == Relabeled(list, id, b)
  {
  }

  /** Label and URL edits do not interfere. */
  lemma EditsCommute(list: seq<Shortcut>, i: string, caption: string, j: string, url: string)
    ensures Relabeled(Retargeted(list, j, url), i, caption) == Retargeted(Relabeled(list, i, caption), j, url)
  {
  }

  /** Editing an item and then removing it is removing it. */
  lemma {:induction false} RemoveAfterRelabel(list: seq<Shortcut>, id: string, caption: string)
    ensures Without(Relabeled(list, id, caption), id) == Without(list, id)
  {
    var keep := (s: Shortcut) => s.id != id;
    if list != [] {
      RemoveAfterRelabel(list[1..], id, caption);
      var r := Relabeled(list, id, caption);
      assert r[1..] == Relabeled(list[1..], id, caption);
      assert Filter(r, keep) == (if keep(r[0]) then [r[0]] else []) + Filter(r[1..], keep);
      assert Filter(list, keep) == (if keep(list[0]) then [list[0]] else []) + Filter(list[1..], keep);
    }
  }

  /** The browser storage for shortcut lists. */
  class ShortcutStorage {
    var items: Store

    constructor (items: Store)
      ensures this.items == items
    {
      this.items := items;
    }
  }

  /** The `ShortcutBar` component: the signed-in user it is given, the list
      it shows, the add form, and the storage. */
  class ShortcutBar {
    const storage: ShortcutStorage
    var user: Option<User>
    var shortcuts: seq<Shortcut>
    var newLabel: string
    var newUrl: string

    /** Mounting runs the load effect. */
    constructor (storage: ShortcutStorage, user: Option<User>)
      ensures this.storage == storage && this.user == user
      ensures shortcuts == Loaded(storage.items, user)
      ensures newLabel == "" && newUrl == ""
    {
      this.storage := storage;
      this.user := user;
      this.shortcuts := Loaded(storage.items, user);
      newLabel, newUrl := "", "";
    }

    /** `loadShortcuts` */
    method LoadShortcuts()
      modifies this`shortcuts
      ensures shortcuts == Loaded(storage.items, user)
    {
      var global := if GlobalKey in storage.items then storage.items[GlobalKey] else Defaults;
      if user.None? {
        shortcuts := global;
        return;
      }
      if user.value.role == Admin {
        shortcuts := global;
      } else {
        var key := PersonalKey(user.value.id);
        shortcuts := if key in storage.items then storage.items[key] else global;
      }
    }

    /** A new signed-in user re-runs the load effect. */
    method SetUser(u: Option<User>)
      modifies this`user, this`shortcuts
      ensures user == u && shortcuts == Loaded(storage.items, u)
    {
      user := u;
      LoadShortcuts();
    }

    /** `saveShortcuts(updated)` */
    method SaveShortcuts(updated: seq<Shortcut>)
      modifies this`shortcuts, storage
      ensures shortcuts == updated
      ensures storage.items == Saved(old(storage.items), user, updated)
    {
      shortcuts := updated;
      if user.Some? && user.value.role == Admin {
        storage.items := storage.items[GlobalKey := updated];
      } else if user.Some? {
        storage.items := storage.items[PersonalKey(user.value.id) := updated];
      }
    }

    /** `addShortcut`; `id` stands for the generated id. */
    method AddShortcut(id: string)
      modifies this`shortcuts, this`newLabel, this`newUrl, storage
      ensures match WithShortcut(old(shortcuts), old(newLabel), old(newUrl), id)
        case None =>
          shortcuts == old(shortcuts) && newLabel == old(newLabel) && newUrl == old(newUrl)
          && storage.items == old(storage.items)
        case Some(list) =>
          shortcuts == list && newLabel == "" && newUrl == ""
          && storage.items == Saved(old(storage.items), user, list)
    {
      if newLabel == "" || newUrl == "" {
        return;
      }
      var url := if StartsWith(newUrl, "http") then newUrl else "https://" + newUrl;
      var newItem := Shortcut(id, newLabel, url);
      SaveShortcuts(shortcuts + [newItem]);
      newLabel := "";
      newUrl := "";
    }

    /** `removeShortcut` */
    method RemoveShortcut(id: string)
      modifies this`shortcuts, storage
      ensures shortcuts == Without(old(shortcuts), id)
      ensures storage.items == Saved(old(storage.items), user, shortcuts)
    {
      SaveShortcuts(Without(shortcuts, id));
    }

    /** The label input of the item with that id, in edit mode. */
    method EditLabel(id: string, caption: string)
      modifies this`shortcuts, storage
      ensures shortcuts == Relabeled(old(shortcuts), id, caption)
      ensures storage.items == Saved(old(storage.items), user, shortcuts)
    {
      SaveShortcuts(Relabeled(shortcuts, id, caption));
    }

    /** The URL input of the item with that id, in edit mode. */
    method EditUrl(id: string, url: string)
      modifies this`shortcuts, storage
      ensures shortcuts == Retargeted(old(shortcuts), id, url)
      ensures storage.items == Saved(old(storage.items), user, shortcuts)
    {
      SaveShortcuts(Retargeted(shortcuts, id, url));
    }
  }
}
