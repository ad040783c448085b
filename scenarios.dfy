/** Clients of the manager's contracts: what a caller can conclude from the
    specifications alone. */
module Scenarios {
  import opened Views
  import opened Bounds
  import opened Manager

  /** Two tabs on a fresh window: select the second, destroy both. The
      selected id survives the destruction of its view, while the selected
      accessor reports nothing. */
  method TwoTabs(layout: Layout)
  {
    var m := new ViewManager(false);
    var a := m.Create(TabDetails("a"));
    var b := m.Create(TabDetails("b"));
    assert a.id == 1 && b.id == 2 && !a.incognito && !b.incognito;
    assert m.views == map[1 := a, 2 := b] && m.selectedId == 0;

    m.Select(2, layout);
    assert m.selectedId == 2 && m.Selected() == Some(b);
    assert m.attached == {2};
    assert m.log[|m.log| - 1] == Activated(2);

    m.Destroy(1);
    assert m.views == map[2 := b] && m.selectedId == 2;
    assert a.destroyed;

    m.Destroy(2);
    assert m.views == map[] && m.selectedId == 2 && m.Selected() == None;
    var logBefore := m.log;
    m.Destroy(2);
    assert m.log == logBefore && m.views == map[];

    var c := m.Create(TabDetails("c"));
    assert c.id == 3 && c.id != a.id && c.id != b.id;
  }

  /** A toolbar that measures 0 five times and then 48: six measurements,
      and the selected view is fitted 48 pixels down. */
  method SlowToolbar(width: int, height: int)
  {
    var m := new ViewManager(false);
    var v := m.Create(TabDetails("a"), sendMessage := false);
    m.Select(v.id, Layout(width, height, Height(48)));
    var stub := (c: nat) => if c < 5 then 0 else 48;
    var n := m.SettleBounds(stub, width, height);
    FiveZerosThen48(width, height);
    assert n == 6;
    assert v.bounds == Some(Rect(0, 48, width, height - 48));
    assert m.pendingRetry == None;
  }

  /** A registered settings tab: the lookups as written miss it and clear
      leaves it alive, while the intended lookup finds it. */
  method LookupsSeeNoViews()
  {
    var m := new ViewManager(false);
    var url := WebUIBaseURL + "settings";
    var s := m.Create(TabDetails(url), sendMessage := false);
    assert IsSettingsURL(s.url);
    assert m.SettingsView() == None;
    assert m.FindByKey("settings") == None;
    var found := m.SettingsViewIntended();
    assert found == Some(s);
    m.Clear();
    assert m.views == map[s.id := s] && !s.destroyed;
    m.ClearIntended();
    assert m.views == map[] && s.destroyed;
  }
}
