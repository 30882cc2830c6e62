/**
 * A mailbox: an ordered list of uniquely named folders that always starts
 * with the "Inbox" and "Trash" folders it was created with.
 */
module Mailboxes {
  import opened Folders

  /** The index of the first folder called name, or -1 (stream().filter(...).findFirst()). */
  function IndexNamed(fs: seq<Folder>, name: string): (i: int)
    ensures -1 <= i < |fs|
    ensures i == -1 <==> forall j :: 0 <= j < |fs| ==> fs[j].name != name
    ensures i >= 0 ==> fs[i].name == name && forall j :: 0 <= j < i ==> fs[j].name != name
  {
    if fs == [] then -1
    else if fs[0].name == name then 0
    else
      var i := IndexNamed(fs[1..], name);
      if i == -1 then -1 else i + 1
  }

  class Mailbox {
    const inbox: Folder
    const trash: Folder
    var folders: seq<Folder>

    /**
     * Inbox and Trash come first and folder names are unique. (Each folder
     * keeps its own order invariant, Folder.Valid.)
     */
    ghost predicate Valid()
      reads this
    {
      && |folders| >= 2 && folders[0] == inbox && folders[1] == trash
      && inbox.name == "Inbox" && trash.name == "Trash"
      && (forall i, j :: 0 <= i < j < |folders| ==> folders[i].name != folders[j].name)
    }

    /** The mailbox a new user gets: an empty Inbox and an empty Trash. */
    ghost predicate Empty()
      reads this, inbox, trash
    {
      folders == [inbox, trash] && inbox.emails == [] && trash.emails == [] &&
      inbox.sortingMethod == "dateDesc" && trash.sortingMethod == "dateDesc"
    }

    constructor ()
      ensures Valid() && fresh(inbox) && fresh(trash) && Empty()
    {
      var i := new Folder("Inbox");
      var t := new Folder("Trash");
      inbox, trash := i, t;
      folders := [i, t];
    }

    /** getFolder: the first folder with that name, or null. */
    function GetFolder(name: string): (f: Folder?)
      reads this
      ensures f == null <==> forall j :: 0 <= j < |folders| ==> folders[j].name != name
      ensures f != null ==> f in folders && f.name == name
    {
      var i := IndexNamed(folders, name);
      if i == -1 then null else folders[i]
    }

    /** Inbox and Trash can always be found by name. */
    lemma PermanentFolders()
      requires Valid()
      ensures GetFolder("Inbox") == inbox && GetFolder("Trash") == trash
    {
      assert folders[0].name == "Inbox";
      assert folders[1].name != "Inbox";
      assert IndexNamed(folders[1..], "Trash") == 0;
    }

    /** addFolder: false where Java throws "Folder exists.", otherwise a new empty folder is appended. */
    method AddFolder(name: string) returns (ok: bool)
      requires Valid()
      modifies this
      ensures Valid()
      ensures ok <==> old(GetFolder(name)) == null
      ensures !ok ==> folders == old(folders)
      ensures ok ==>
        var n := |old(folders)|;
        && |folders| == n + 1 && folders[..n] == old(folders)
        && fresh(folders[n]) && folders[n].name == name
        && folders[n].emails == [] && folders[n].sortingMethod == "dateDesc"
    {
      if GetFolder(name) != null {
        return false;
      }
      var f := new Folder(name);
      folders := folders + [f];
      ok := true;
    }

    /**
     * removeFolder: false where Java throws "Cannot remove this folder." (no
     * such folder, or Inbox or Trash), otherwise the named folder is removed.
     */
    method RemoveFolder(name: string) returns (ok: bool)
      requires Valid()
      modifies this
      ensures Valid()
      ensures ok <==> old(GetFolder(name)) != null && name != "Inbox" && name != "Trash"
      ensures !ok ==> folders == old(folders)
      ensures ok ==>
        var k := IndexNamed(old(folders), name);
        folders == old(folders)[..k] + old(folders)[k + 1..]
    {
      var folder := GetFolder(name);
      if folder == null || folder.name == "Inbox" || folder.name == "Trash" {
        return false;
      }
      var k := IndexNamed(folders, name);
      assert k >= 2;
      folders := folders[..k] + folders[k + 1..];
      ok := true;
      forall i, j | 0 <= i < j < |folders| ensures folders[i].name != folders[j].name {
        var i' := if i < k then i else i + 1;
        var j' := if j < k then j else j + 1;
        assert folders[i] == old(folders)[i'] && folders[j] == old(folders)[j'];
      }
    }
  }
}
