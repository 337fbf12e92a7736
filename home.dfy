/** The home page: the list of saved station pairs it shows. */
module Home {
  import opened Js
  import opened Transit

  /** A saved connection: an identifier and two stations. */
  datatype SavedConnection = SavedConnection(id: string, from: Place, to: Place)

  const MaxStationLength := 30
  const Arrow := " -> "
  const NoSavedConnections := "Add Connections in App"

  /** `<from> -> <to>`, each name cut to its first 30 characters. */
  function ConnectionLabel(c: SavedConnection): (r: string)
    ensures var a := Min(MaxStationLength, |c.from.name|); var b := Min(MaxStationLength, |c.to.name|);
      |r| == a + |Arrow| + b &&
      r[..a] == c.from.name[..a] && r[a..a + |Arrow|] == Arrow && r[a + |Arrow|..] == c.to.name[..b]
    ensures |r| <= 2 * MaxStationLength + |Arrow|
    ensures |c.from.name| <= MaxStationLength && |c.to.name| <= MaxStationLength ==>
      r == c.from.name + Arrow + c.to.name
  {
    var from := Prefix(c.from.name, MaxStationLength);
    var to := Prefix(c.to.name, MaxStationLength);
    var r := from + Arrow + to;
    assert r[..|from|] == from && r[|from|..|from| + |Arrow|] == Arrow && r[|from| + |Arrow|..] == to;
    r
  }

  /** `connections.map(...)`: one label per saved connection, in order. */
  function ConnectionLabels(conns: seq<SavedConnection>): (r: seq<string>)
    ensures |r| == |conns|
    ensures forall i :: 0 <= i < |conns| ==> r[i] == ConnectionLabel(conns[i])
  {
    if conns == [] then [] else [ConnectionLabel(conns[0])] + ConnectionLabels(conns[1..])
  }

  /** `connectionNames`: the labels, or the single placeholder when nothing is saved. */
  function ConnectionNames(conns: seq<SavedConnection>): (names: seq<string>)
    ensures |names| == if conns == [] then 1 else |conns|
    ensures conns == [] ==> names == [NoSavedConnections]
    ensures forall i :: 0 <= i < |conns| ==> names[i] == ConnectionLabel(conns[i])
    ensures forall i :: 0 <= i < |names| ==> |names[i]| <= 2 * MaxStationLength + |Arrow|
  {
    if |conns| > 0 then ConnectionLabels(conns) else [NoSavedConnections]
  }

  /** `itemCount`: the number of names, never zero. */
  function ItemCount(conns: seq<SavedConnection>): (n: nat)
    ensures n == |ConnectionNames(conns)|
    ensures n >= 1 && (conns != [] ==> n == |conns|)
  {
    |ConnectionNames(conns)|
  }
}
