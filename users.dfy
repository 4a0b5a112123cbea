/** `SnapchatDownloader`'s handle list: the guards of `add_user`,
    `remove_user` and `start_download` that give the worker its input.
    The widgets (the list view, the line edit, the message boxes) are not
    modelled; a warning box is the `false` result of `AddUser` or the `null`
    result of `StartDownload`. */
module Users {
  import opened Text
  import opened Inputs
  import opened Media
  import opened Pipeline

  predicate NoDuplicates(l: seq<string>)
  {
    forall i, j :: 0 <= i < j < |l| ==> l[i] != l[j]
  }

  /** x neither starts nor ends with whitespace, as every result of `Strip` does. */
  predicate Trimmed(x: string)
  {
    x != [] ==> !IsSpace(x[0]) && !IsSpace(x[|x| - 1])
  }

  /** What the guards keep true of the list: its entries are distinct, non-empty and stripped. */
  predicate WellFormed(l: seq<string>)
  {
    NoDuplicates(l) && forall i :: 0 <= i < |l| ==> l[i] != "" && Trimmed(l[i])
  }

  function Elems(l: seq<string>): set<string>
  {
    set x | x in l
  }

  /** Python's `l.remove(x)`: the first occurrence of x taken out. */
  function RemoveFirst(l: seq<string>, x: string): (r: seq<string>)
    requires x in l
    ensures |r| == |l| - 1
  {
    if l[0] == x then l[1..] else [l[0]] + RemoveFirst(l[1..], x)
  }

  /** l without the elements of xs, in the original order. */
  function Without(l: seq<string>, xs: set<string>): seq<string>
  {
    if l == [] then [] else (if l[0] in xs then [] else [l[0]]) + Without(l[1..], xs)
  }

  /** Exactly the members of l outside xs remain. */
  lemma {:induction false} WithoutMembers(l: seq<string>, xs: set<string>)
    ensures forall y :: y in Without(l, xs) <==> y in l && y !in xs
    decreases |l|
  {
    if l != [] {
      WithoutMembers(l[1..], xs);
      assert forall y :: y in l <==> y == l[0] || y in l[1..];
    }
  }

  /** Removing the elements of a selection leaves exactly the unselected names. */
  lemma RemovedNames(l: seq<string>, selected: seq<string>)
    ensures forall y :: y in Without(l, Elems(selected)) <==> y in l && y !in selected
  {
    WithoutMembers(l, Elems(selected));
  }

  /** Removing entries keeps the list well formed. */
  lemma {:induction false} WithoutWellFormed(l: seq<string>, xs: set<string>)
    requires WellFormed(l)
    ensures WellFormed(Without(l, xs))
    decreases |l|
  {
    if l != [] {
      assert WellFormed(l[1..]) by {
        assert forall i :: 0 <= i < |l[1..]| ==> l[1..][i] == l[i + 1];
      }
      WithoutWellFormed(l[1..], xs);
      WithoutMembers(l[1..], xs);
      var rest := Without(l[1..], xs);
      if l[0] !in xs {
        assert l[0] !in l[1..];
        assert Without(l, xs) == [l[0]] + rest;
        assert forall i :: 1 <= i < |[l[0]] + rest| ==> ([l[0]] + rest)[i] == rest[i - 1];
      } else {
        assert Without(l, xs) == [] + rest;
      }
    }
  }

  /** In a list without duplicates, `remove` takes out every occurrence of x. */
  lemma {:induction false} RemoveFirstOfDistinct(l: seq<string>, x: string)
    requires NoDuplicates(l) && x in l
    ensures RemoveFirst(l, x) == Without(l, {x})
    decreases |l|
  {
    assert NoDuplicates(l[1..]) by {
      assert forall i :: 0 <= i < |l[1..]| ==> l[1..][i] == l[i + 1];
    }
    if l[0] == x {
      assert x !in l[1..];
      WithoutMembers(l[1..], {x});
      NothingToRemove(l[1..], {x});
    } else {
      RemoveFirstOfDistinct(l[1..], x);
    }
  }

  lemma {:induction false} NothingToRemove(l: seq<string>, xs: set<string>)
    requires forall y :: y in l ==> y !in xs
    ensures Without(l, xs) == l
    decreases |l|
  {
    if l != [] {
      assert forall y :: y in l[1..] ==> y in l;
      NothingToRemove(l[1..], xs);
      assert l == [l[0]] + l[1..];
    }
  }

  /** Removing xs and then ys is removing both at once. */
  lemma {:induction false} WithoutTwice(l: seq<string>, xs: set<string>, ys: set<string>)
    ensures Without(Without(l, xs), ys) == Without(l, xs + ys)
    decreases |l|
  {
    if l != [] {
      WithoutTwice(l[1..], xs, ys);
      var head := if l[0] in xs then [] else [l[0]];
      WithoutAppend(head, Without(l[1..], xs), ys);
      if l[0] !in xs {
        assert Without(head, ys) == (if l[0] in ys then [] else [l[0]]) + Without([], ys);
      }
    }
  }

  lemma {:induction false} WithoutAppend(a: seq<string>, b: seq<string>, xs: set<string>)
    ensures Without(a + b, xs) == Without(a, xs) + Without(b, xs)
    decreases |a|
  {
    if a == [] {
      assert a + b == b;
    } else {
      assert (a + b)[0] == a[0];
      assert (a + b)[1..] == a[1..] + b;
      WithoutAppend(a[1..], b, xs);
    }
  }

  class SnapchatDownloader {
    var userslist: seq<string>

    ghost predicate Valid()
      reads this
    {
      WellFormed(userslist)
    }

    constructor ()
      ensures Valid() && userslist == []
    {
      userslist := [];
    }

    /** `add_user`: the stripped text is appended when it is non-empty and not
        yet listed; otherwise the list is left alone and a warning is shown. */
    method AddUser(text: string) returns (added: bool)
      requires Valid()
      modifies this
      ensures Valid()
      ensures var name := Strip(text);
              added == (name != "" && name !in old(userslist))
              && userslist == if added then old(userslist) + [name] else old(userslist)
    {
      var newUser := Strip(text);
      if newUser != "" && newUser !in userslist {
        userslist := userslist + [newUser];
        added := true;
      } else {
        added := false;
      }
    }

    /** `remove_user`: each selected name is removed with `list.remove`. The
        selection comes from the list view, which shows exactly the listed
        names, so its names are distinct and all listed. */
    method RemoveUser(selected: seq<string>)
      requires Valid() && NoDuplicates(selected) && forall s :: s in selected ==> s in userslist
      modifies this
      ensures Valid()
      ensures userslist == Without(old(userslist), Elems(selected))
      ensures |userslist| == |old(userslist)| - |selected|
      ensures forall y :: y in userslist <==> y in old(userslist) && y !in selected
    {
      ghost var l0 := userslist;
      NothingToRemove(l0, {});
      assert Elems(selected[..0]) == {};
      for k := 0 to |selected|
        invariant Valid()
        invariant userslist == Without(l0, Elems(selected[..k]))
        invariant |userslist| == |l0| - k
        invariant forall j :: k <= j < |selected| ==> selected[j] in userslist
      {
        var name := selected[k];
        RemoveOne(name);
        WithoutTwice(l0, Elems(selected[..k]), {name});
        assert selected[..k + 1] == selected[..k] + [name];
        assert Elems(selected[..k + 1]) == Elems(selected[..k]) + {name};
      }
      assert selected[..|selected|] == selected;
      RemovedNames(l0, selected);
    }

    /** `self.userslist.remove(name)` on a well-formed list: the one entry
        equal to name is taken out and the rest keep their order. */
    method RemoveOne(name: string)
      requires Valid() && name in userslist
      modifies this
      ensures Valid()
      ensures userslist == Without(old(userslist), {name})
      ensures |userslist| == |old(userslist)| - 1
      ensures forall y :: y in userslist <==> y in old(userslist) && y != name
    {
      RemoveFirstOfDistinct(userslist, name);
      WithoutWellFormed(userslist, {name});
      WithoutMembers(userslist, {name});
      userslist := RemoveFirst(userslist, name);
    }

    /** `start_download`: an empty list is refused with a warning; otherwise a
        worker is made over the list and run. A refused list leaves no worker,
        so a worker always has at least one handle. */
    method StartDownload(directory: Directory, fetchPage: string -> Page, fetch: string -> Response)
      returns (thread: DownloadThread?)
      requires Valid()
      ensures thread == null <==> userslist == []
      ensures thread != null ==>
                fresh(thread) && thread.userslist == userslist && 1 <= |thread.userslist|
                && thread.directory == RunStage(directory, userslist, fetchPage, fetch).dir
                && thread.events == RunStage(directory, userslist, fetchPage, fetch).events
                && Percents(thread.events) == ProgressSeq(|userslist|) && Completions(thread.events) == 1
    {
      if userslist == [] {
        return null;
      }
      thread := new DownloadThread(userslist, directory);
      thread.Run(fetchPage, fetch);
      RunProgress(directory, userslist, fetchPage, fetch);
    }
  }
}
