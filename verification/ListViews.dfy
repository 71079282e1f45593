/** What a set of control lists shows, as one value: a step that leaves other lists
    alone leaves their views equal. */
module ListViews {
  import opened Seqs
  import opened Bytes
  import opened ConsecutivePool
  import opened ControlLists

  /** What a list shows: its bytes, where its marker is, and its room to grow. */
  datatype View = View(contents: seq<byte>, cursor: Option<nat>, room: int)

  ghost function Views(ls: set<ControlList>, cpa: ConsecutivePool): (v: map<ControlList, View>)
    reads ls, cpa.buf
  {
    map d | d in ls && d.CPA == cpa && d.Placed() :: View(d.Contents(), d.Cursor(), d.Room())
  }

  twostate lemma ViewsKept(new ls: set<ControlList>, new cpa: ConsecutivePool)
    requires old(allocated(ls)) && old(allocated(cpa))
    requires forall d :: d in ls ==> unchanged(d) && d.CPA == cpa && d.Placed() && d.Space() == old(d.Space())
    ensures Views(ls, cpa) == old(Views(ls, cpa))
  {
    hide ControlList.Space, ControlList.Contents;
    forall d | d in ls ensures d.Contents() == old(d.Contents()) {
      d.SpaceKept();
    }
  }

  twostate lemma ViewKept(new d: ControlList, new ls: set<ControlList>, new cpa: ConsecutivePool)
    requires old(allocated(d)) && old(allocated(ls)) && old(allocated(cpa))
    requires Views(ls, cpa) == old(Views(ls, cpa)) && d in ls && d.CPA == cpa && d.Placed()
    ensures old(d.Placed())
    ensures d.Contents() == old(d.Contents()) && d.Cursor() == old(d.Cursor()) && d.Room() == old(d.Room())
  {
    hide ControlList.Contents, ControlList.Cursor, ControlList.Room;
    assert d in Views(ls, cpa);
    assert Views(ls, cpa)[d] == old(Views(ls, cpa)[d]);
  }

  twostate lemma FewerViews(new sub: set<ControlList>, new ls: set<ControlList>, new cpa: ConsecutivePool)
    requires old(allocated(sub)) && old(allocated(ls)) && old(allocated(cpa))
    requires Views(ls, cpa) == old(Views(ls, cpa)) && sub <= ls
    ensures Views(sub, cpa) == old(Views(sub, cpa))
  {
    hide ControlList.Contents, ControlList.Cursor, ControlList.Room;
    forall d | d in sub && d.CPA == cpa && d.Placed() ensures d in old(Views(sub, cpa)) && Views(sub, cpa)[d] == old(Views(sub, cpa)[d]) {
      ViewKept(d, ls, cpa);
    }
    forall d | d in old(Views(sub, cpa)) ensures d in Views(sub, cpa) {
      assert d in old(Views(ls, cpa));
    }
  }
}
