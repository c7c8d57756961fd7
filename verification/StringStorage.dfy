/** A page allocator for strings whose pages are shared between copies (common/StableStringStorage.h). */
module StringStorage {

  /** A string view handed out: a range of a page, and the text it was created for. */
  datatype View = View(page: array<char>, offset: nat, text: string) {
    ghost function End(): nat {
      offset + |text|
    }
  }

  class Storage {
    const pageSize: nat
    var strings: seq<array<char>>
    var currentPagePosition: nat

    constructor (pageSize: nat)
      ensures this.pageSize == pageSize && strings == [] && currentPagePosition == pageSize + 1
    {
      this.pageSize := pageSize;
      strings := [];
      currentPagePosition := pageSize + 1;
    }

    /** A position within the page size means that the last page is this storage's to write to. */
    ghost predicate Writes()
      reads this
    {
      currentPagePosition <= pageSize
    }

    ghost predicate Valid()
      reads this
    {
      Writes() ==> strings != [] && strings[|strings| - 1].Length == pageSize
    }

    ghost predicate WritesTo(page: array<char>)
      reads this
    {
      Writes() && strings != [] && strings[|strings| - 1] == page
    }

    /** Copy assignment: the pages are shared, and none of them is written to from here. */
    method Assign(rhs: Storage, ghost storages: set<Storage>, ghost views: seq<View>)
      requires this in storages && rhs in storages && World(storages, views)
      modifies this
      ensures World(storages, views) && strings == old(rhs.strings) && !Writes()
    {
      strings := rhs.strings;
      currentPagePosition := pageSize + 1;
    }

    /** `enterString`. The new view joins those handed out so far, by whichever storage. */
    method EnterString(str: string, ghost storages: set<Storage>, ghost views: seq<View>) returns (view: View)
      requires this in storages && World(storages, views)
      modifies this, if currentPagePosition <= pageSize && strings != [] then {strings[|strings| - 1]} else {}
      ensures view.text == str && World(storages, views + [view])
      ensures view.page in strings && forall p <- old(strings) :: p in strings
    {
      if |str| > pageSize {
        view := EnterHuge(str, storages, views);
      } else {
        view := EnterSmall(str, storages, views);
      }
    }

    /** A string larger than a page gets a page of its own, kept behind the page being filled. */
    method EnterHuge(str: string, ghost storages: set<Storage>, ghost views: seq<View>) returns (view: View)
      requires this in storages && World(storages, views) && |str| > pageSize
      modifies this
      ensures view.text == str && World(storages, views + [view])
      ensures view.page in strings && forall p <- old(strings) :: p in strings
    {
      if strings == [] {
        OpenPage(storages, views);
      }
      view := InsertHuge(str, storages, views);
    }

    /** A page of its own for a huge string, put in front of the last page. */
    method InsertHuge(str: string, ghost storages: set<Storage>, ghost views: seq<View>) returns (view: View)
      requires this in storages && World(storages, views) && strings != []
      modifies this`strings
      ensures view.text == str && World(storages, views + [view])
      ensures view.page in strings && forall p <- old(strings) :: p in strings
    {
      var inserted := new char[|str|];
      CopyBytes(inserted, 0, str);
      view := View(inserted, 0, str);
      var n := |strings|;
      strings := strings[..n - 1] + [inserted, strings[n - 1]];
      assert strings[n - 1] == inserted && strings[n] == old(strings)[n - 1];
      forall s | s in storages ensures s.Valid() && Behind(view, s) {
        assert old(s.Valid());
      }
      forall s, t | s in storages && t in storages && s != t ensures OneWriter(s, t) {
        assert old(OneWriter(s, t));
      }
      forall i, s | 0 <= i < |views| && s in storages ensures Behind(views[i], s) {
        assert old(Behind(views[i], s));
      }
      JoinView(storages, views, view);
    }

    /** A new empty page to fill. */
    method OpenPage(ghost storages: set<Storage>, ghost views: seq<View>)
      requires this in storages && World(storages, views)
      modifies this
      ensures World(storages, views) && currentPagePosition == 0 && |strings| == |old(strings)| + 1
      ensures strings[..|old(strings)|] == old(strings) && fresh(strings[|old(strings)|])
    {
      var page := new char[pageSize];
      strings := strings + [page];
      currentPagePosition := 0;
    }

    /** Fill the current page further. */
    method Append(str: string, ghost storages: set<Storage>, ghost views: seq<View>) returns (view: View)
      requires this in storages && World(storages, views) && Writes() && currentPagePosition + |str| <= pageSize
      modifies this`currentPagePosition, strings[|strings| - 1]
      ensures view.text == str && view.page == strings[|strings| - 1] && World(storages, views + [view])
    {
      var page, from := strings[|strings| - 1], currentPagePosition;
      CopyBytes(page, from, str);
      currentPagePosition := from + |str|;
      view := View(page, from, str);
      forall i | 0 <= i < |views| ensures Intact(views[i]) && Disjoint(views[i], view) {
        assert old(Intact(views[i])) && old(Behind(views[i], this));
        assert views[i].page[views[i].offset..views[i].End()] == old(views[i].page[views[i].offset..views[i].End()]);
      }
      forall s | s in storages ensures s.Valid() && Behind(view, s) {
        assert old(s.Valid());
        if s != this { assert old(OneWriter(s, this)); }
      }
      forall s, t | s in storages && t in storages && s != t ensures OneWriter(s, t) {
        assert old(OneWriter(s, t));
      }
      forall i, s | 0 <= i < |views| && s in storages ensures Behind(views[i], s) {
        assert old(Behind(views[i], s));
      }
      JoinView(storages, views, view);
    }

    /** A string that fits into a page goes to the current page, or to a new one if there is no room. */
    method EnterSmall(str: string, ghost storages: set<Storage>, ghost views: seq<View>) returns (view: View)
      requires this in storages && World(storages, views) && |str| <= pageSize
      modifies this, if currentPagePosition <= pageSize && strings != [] then {strings[|strings| - 1]} else {}
      ensures view.text == str && World(storages, views + [view])
      ensures view.page in strings && forall p <- old(strings) :: p in strings
    {
      if currentPagePosition + |str| > pageSize {
        OpenPage(storages, views);
        assert strings == old(strings) + [strings[|strings| - 1]];
      }
      view := Append(str, storages, views);
    }
  }

  /** `memcpy` into a page. */
  method CopyBytes(page: array<char>, from: nat, str: string)
    requires from + |str| <= page.Length
    modifies page
    ensures page[from..from + |str|] == str
    ensures forall k :: 0 <= k < page.Length && !(from <= k < from + |str|) ==> page[k] == old(page[k])
  {
    forall k | 0 <= k < |str| {
      page[from + k] := str[k];
    }
  }

  /** One more view, of bytes that no other view covers. */
  lemma JoinView(storages: set<Storage>, views: seq<View>, view: View)
    requires World(storages, views) && Intact(view)
    requires forall s <- storages :: Behind(view, s)
    requires forall i :: 0 <= i < |views| ==> Disjoint(views[i], view)
    ensures World(storages, views + [view])
  {
  }

  /** The view still reads as the text it was created for. */
  ghost predicate Intact(v: View)
    reads v.page
  {
    v.End() <= v.page.Length && v.page[v.offset..v.End()] == v.text
  }

  ghost predicate Disjoint(v: View, w: View) {
    v.page != w.page || v.End() <= w.offset || w.End() <= v.offset || v.text == "" || w.text == ""
  }

  /** Nothing is ever written below the current position of the page being filled. */
  ghost predicate Behind(v: View, s: Storage)
    reads s
  {
    s.WritesTo(v.page) ==> v.End() <= s.currentPagePosition
  }

  /**
   * All storages and all views handed out so far: no page has two writers, and every view is intact, apart from the
   * others and behind the position of whoever still writes to its page.
   */
  ghost predicate World(storages: set<Storage>, views: seq<View>)
    reads storages
    reads set v <- views :: v.page
  {
    && (forall s <- storages :: s.Valid())
    && (forall s <- storages, t <- storages :: s != t ==> OneWriter(s, t))
    && (forall i :: 0 <= i < |views| ==> Intact(views[i]))
    && (forall i, s :: 0 <= i < |views| && s in storages ==> Behind(views[i], s))
    && (forall i, j :: 0 <= i < j < |views| ==> Disjoint(views[i], views[j]))
  }

  ghost predicate OneWriter(s: Storage, t: Storage)
    reads s, t
  {
    s.Writes() && t.Writes() && s.strings != [] && t.strings != [] ==>
      s.strings[|s.strings| - 1] != t.strings[|t.strings| - 1]
  }

  /** A new storage joins without disturbing anything. */
  method NewStorage(pageSize: nat, ghost storages: set<Storage>, ghost views: seq<View>) returns (s: Storage)
    requires World(storages, views)
    ensures World(storages + {s}, views) && s !in storages
  {
    s := new Storage(pageSize);
  }
}
