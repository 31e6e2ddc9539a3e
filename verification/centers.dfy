/** The grouping step of the center listings: the joined rows
    (center x image x pitch) are folded into one entry per center, carrying
    the center's images and pitches without repeats. The favourites listing
    folds its rows the same way. */
module Centers {
  import opened Common

  datatype Image = Image(id: int, uri: string)

  datatype PitchInfo = PitchInfo(id: int, pitchType: string, surface: string, status: string)

  /** One row of the join: the center's own columns (`columns` holds those
      other than id), then the image and pitch columns, NULL when the outer
      join found none. */
  datatype Row = Row(
    id: int,
    columns: map<string, JsValue>,
    imageId: Option<int>,
    imageUri: string,
    pitchId: Option<int>,
    pitchType: string,
    surface: string,
    status: string)

  /** A center entry: the row it was first built from (all of its columns
      are spread into the entry), with its images and pitches. */
  datatype Center = Center(base: Row, images: seq<Image>, pitches: seq<PitchInfo>)

  /** A joined id column is truthy: not NULL and not 0. */
  predicate Present(o: Option<int>)
  {
    o.Some? && o.value != 0
  }

  function ImageOf(row: Row): Image
    requires Present(row.imageId)
  {
    Image(row.imageId.value, row.imageUri)
  }

  function PitchOf(row: Row): PitchInfo
    requires Present(row.pitchId)
  {
    PitchInfo(row.pitchId.value, row.pitchType, row.surface, row.status)
  }

  /** The index of the first entry with the given id, if any. */
  function IndexOf(acc: seq<Center>, id: int): (r: Option<nat>)
    ensures r.Some? ==> r.value < |acc| && acc[r.value].base.id == id
    ensures r.Some? ==> forall k :: 0 <= k < r.value ==> acc[k].base.id != id
    ensures r.None? ==> forall k :: 0 <= k < |acc| ==> acc[k].base.id != id
  {
    if acc == [] then None
    else if acc[0].base.id == id then Some(0)
    else match IndexOf(acc[1..], id)
      case None => None
      case Some(k) => Some(k + 1)
  }

  predicate HasImage(images: seq<Image>, id: int)
  {
    exists k :: 0 <= k < |images| && images[k].id == id
  }

  predicate HasPitch(pitches: seq<PitchInfo>, id: int)
  {
    exists k :: 0 <= k < |pitches| && pitches[k].id == id
  }

  /** The entry built from the first row of a center. */
  function NewCenter(row: Row): Center
  {
    Center(row,
      if Present(row.imageId) then [ImageOf(row)] else [],
      if Present(row.pitchId) then [PitchOf(row)] else [])
  }

  /** A later row of the same center adds its image and its pitch unless
      an entry with that id is already there. */
  function Merge(c: Center, row: Row): Center
  {
    c.(images := if Present(row.imageId) && !HasImage(c.images, row.imageId.value) then c.images + [ImageOf(row)] else c.images,
       pitches := if Present(row.pitchId) && !HasPitch(c.pitches, row.pitchId.value) then c.pitches + [PitchOf(row)] else c.pitches)
  }

  /** One step of the reduce. */
  function AddRow(acc: seq<Center>, row: Row): seq<Center>
  {
    match IndexOf(acc, row.id)
    case None => acc + [NewCenter(row)]
    case Some(i) => acc[i := Merge(acc[i], row)]
  }

  /** The reduce over all rows, in row order. */
  function Group(rows: seq<Row>): seq<Center>
  {
    if rows == [] then [] else AddRow(Group(rows[..|rows| - 1]), rows[|rows| - 1])
  }

  /** The reduce as the controller runs it: the accumulator's entry for the
      row's center is found and updated in place, or a new entry is pushed. */
  method GroupRows(rows: seq<Row>) returns (centers: seq<Center>)
    ensures centers == Group(rows)
    ensures CenterIds(centers) == Dedup(RowIds(rows))
    ensures forall i :: 0 <= i < |centers| ==> ImagesOk(centers[i], rows) && PitchesOk(centers[i], rows)
  {
    var acc: seq<Center> := [];
    for n := 0 to |rows|
      invariant acc == Group(rows[..n])
    {
      var row := rows[n];
      var center := IndexOf(acc, row.id);
      if center.None? {
        acc := acc + [NewCenter(row)];
      } else {
        var i := center.value;
        var c := acc[i];
        if Present(row.imageId) && !HasImage(c.images, row.imageId.value) {
          c := c.(images := c.images + [ImageOf(row)]);
        }
        if Present(row.pitchId) && !HasPitch(c.pitches, row.pitchId.value) {
          c := c.(pitches := c.pitches + [PitchOf(row)]);
        }
        acc := acc[i := c];
      }
      assert rows[..n + 1][..n] == rows[..n];
    }
    assert rows[..|rows|] == rows;
    centers := acc;
    GroupIds(rows);
    GroupImages(rows);
    GroupPitches(rows);
  }

  // ---------------------------------------------------------------
  // Center ids
  // ---------------------------------------------------------------

  function CenterIds(cs: seq<Center>): (ids: seq<int>)
    ensures |ids| == |cs|
    ensures forall k :: 0 <= k < |cs| ==> ids[k] == cs[k].base.id
  {
    seq(|cs|, k requires 0 <= k < |cs| => cs[k].base.id)
  }

  function RowIds(rows: seq<Row>): (ids: seq<int>)
    ensures |ids| == |rows|
    ensures forall k :: 0 <= k < |rows| ==> ids[k] == rows[k].id
  {
    seq(|rows|, k requires 0 <= k < |rows| => rows[k].id)
  }

  /** The values of xs in order of first appearance. */
  function Dedup(xs: seq<int>): (d: seq<int>)
    ensures forall x :: x in d <==> x in xs
    ensures forall i, j :: 0 <= i < j < |d| ==> d[i] != d[j]
  {
    if xs == [] then []
    else
      var prev := Dedup(xs[..|xs| - 1]);
      assert xs == xs[..|xs| - 1] + [xs[|xs| - 1]];
      if xs[|xs| - 1] in prev then prev else prev + [xs[|xs| - 1]]
  }

  lemma AddRowIds(acc: seq<Center>, row: Row)
    ensures CenterIds(AddRow(acc, row)) ==
      if row.id in CenterIds(acc) then CenterIds(acc) else CenterIds(acc) + [row.id]
  {
    match IndexOf(acc, row.id)
    case None =>
      assert CenterIds(acc + [NewCenter(row)]) == CenterIds(acc) + [row.id];
    case Some(i) =>
      assert CenterIds(acc[i := Merge(acc[i], row)]) == CenterIds(acc);
  }

  /** One entry per center, in order of each center's first row: in
      particular no center is listed twice and every center of the rows is
      listed. */
  lemma {:induction false} GroupIds(rows: seq<Row>)
    ensures CenterIds(Group(rows)) == Dedup(RowIds(rows))
  {
    if rows != [] {
      var prefix := rows[..|rows| - 1];
      GroupIds(prefix);
      AddRowIds(Group(prefix), rows[|rows| - 1]);
      assert RowIds(rows)[..|rows| - 1] == RowIds(prefix);
    }
  }

  /** r is the first of the rows that belong to its center. */
  predicate FirstRowOf(rows: seq<Row>, r: Row)
  {
    exists k :: 0 <= k < |rows| && rows[k] == r && forall k' :: 0 <= k' < k ==> rows[k'].id != r.id
  }

  lemma FirstRowOfExtends(rows: seq<Row>, row: Row, r: Row)
    requires FirstRowOf(rows, r)
    ensures FirstRowOf(rows + [row], r)
  {
    var k :| 0 <= k < |rows| && rows[k] == r && forall k' :: 0 <= k' < k ==> rows[k'].id != r.id;
    assert (rows + [row])[k] == r;
  }

  lemma BaseStep(acc: seq<Center>, prefix: seq<Row>, row: Row, i: nat)
    requires forall j :: 0 <= j < |acc| ==> FirstRowOf(prefix, acc[j].base)
    requires row.id !in CenterIds(acc) ==> forall k :: 0 <= k < |prefix| ==> prefix[k].id != row.id
    requires i < |AddRow(acc, row)|
    ensures FirstRowOf(prefix + [row], AddRow(acc, row)[i].base)
  {
    var rows := prefix + [row];
    var out := AddRow(acc, row);
    if i < |acc| {
      assert out[i].base == acc[i].base;
      FirstRowOfExtends(prefix, row, acc[i].base);
    } else {
      assert out[i].base == row && row.id !in CenterIds(acc);
      assert rows[|prefix|] == row;
      assert forall k' :: 0 <= k' < |prefix| ==> rows[k'].id != row.id;
    }
  }

  /** Each entry is built from the first row of its center. */
  lemma {:induction false} GroupBaseIsFirstRow(rows: seq<Row>)
    ensures forall i :: 0 <= i < |Group(rows)| ==> FirstRowOf(rows, Group(rows)[i].base)
  {
    if rows != [] {
      var prefix := rows[..|rows| - 1];
      var row := rows[|rows| - 1];
      assert rows == prefix + [row];
      GroupBaseIsFirstRow(prefix);
      GroupIds(prefix);
      if row.id !in CenterIds(Group(prefix)) {
        forall k | 0 <= k < |prefix|
          ensures prefix[k].id != row.id
        {
          assert RowIds(prefix)[k] in RowIds(prefix);
        }
      }
      forall i | 0 <= i < |Group(rows)|
        ensures FirstRowOf(rows, Group(rows)[i].base)
      {
        BaseStep(Group(prefix), prefix, row, i);
      }
    }
  }

  // ---------------------------------------------------------------
  // Images and pitches of a center
  // ---------------------------------------------------------------

  function ImageIds(images: seq<Image>): set<int>
  {
    set k | 0 <= k < |images| :: images[k].id
  }

  function PitchIds(pitches: seq<PitchInfo>): set<int>
  {
    set k | 0 <= k < |pitches| :: pitches[k].id
  }

  predicate DistinctImages(images: seq<Image>)
  {
    forall i, j :: 0 <= i < j < |images| ==> images[i].id != images[j].id
  }

  predicate DistinctPitches(pitches: seq<PitchInfo>)
  {
    forall i, j :: 0 <= i < j < |pitches| ==> pitches[i].id != pitches[j].id
  }

  /** The image ids the rows of a center carry. */
  function RowImageIds(rows: seq<Row>, centerId: int): set<int>
  {
    if rows == [] then {}
    else
      var row := rows[|rows| - 1];
      RowImageIds(rows[..|rows| - 1], centerId) + (if row.id == centerId && Present(row.imageId) then {row.imageId.value} else {})
  }

  /** x is among them exactly when some row of the center carries it. */
  lemma {:induction false} RowImageIdsSpec(rows: seq<Row>, centerId: int, x: int)
    ensures x in RowImageIds(rows, centerId) <==>
      exists k :: 0 <= k < |rows| && rows[k].id == centerId && Present(rows[k].imageId) && rows[k].imageId.value == x
  {
    if rows != [] {
      var prefix := rows[..|rows| - 1];
      RowImageIdsSpec(prefix, centerId, x);
      if exists k :: 0 <= k < |prefix| && prefix[k].id == centerId && Present(prefix[k].imageId) && prefix[k].imageId.value == x {
        var k :| 0 <= k < |prefix| && prefix[k].id == centerId && Present(prefix[k].imageId) && prefix[k].imageId.value == x;
        assert rows[k] == prefix[k];
      }
      if exists k :: 0 <= k < |rows| && rows[k].id == centerId && Present(rows[k].imageId) && rows[k].imageId.value == x {
        var k :| 0 <= k < |rows| && rows[k].id == centerId && Present(rows[k].imageId) && rows[k].imageId.value == x;
        if k < |prefix| {
          assert prefix[k] == rows[k];
        }
      }
    }
  }

  /** The pitch ids the rows of a center carry. */
  function RowPitchIds(rows: seq<Row>, centerId: int): set<int>
  {
    if rows == [] then {}
    else
      var row := rows[|rows| - 1];
      RowPitchIds(rows[..|rows| - 1], centerId) + (if row.id == centerId && Present(row.pitchId) then {row.pitchId.value} else {})
  }

  /** x is among them exactly when some row of the center carries it. */
  lemma {:induction false} RowPitchIdsSpec(rows: seq<Row>, centerId: int, x: int)
    ensures x in RowPitchIds(rows, centerId) <==>
      exists k :: 0 <= k < |rows| && rows[k].id == centerId && Present(rows[k].pitchId) && rows[k].pitchId.value == x
  {
    if rows != [] {
      var prefix := rows[..|rows| - 1];
      RowPitchIdsSpec(prefix, centerId, x);
      if exists k :: 0 <= k < |prefix| && prefix[k].id == centerId && Present(prefix[k].pitchId) && prefix[k].pitchId.value == x {
        var k :| 0 <= k < |prefix| && prefix[k].id == centerId && Present(prefix[k].pitchId) && prefix[k].pitchId.value == x;
        assert rows[k] == prefix[k];
      }
      if exists k :: 0 <= k < |rows| && rows[k].id == centerId && Present(rows[k].pitchId) && rows[k].pitchId.value == x {
        var k :| 0 <= k < |rows| && rows[k].id == centerId && Present(rows[k].pitchId) && rows[k].pitchId.value == x;
        if k < |prefix| {
          assert prefix[k] == rows[k];
        }
      }
    }
  }

  lemma AppendImage(images: seq<Image>, im: Image)
    requires DistinctImages(images) && !HasImage(images, im.id)
    ensures ImageIds(images + [im]) == ImageIds(images) + {im.id}
    ensures DistinctImages(images + [im])
  {
    var ext := images + [im];
    assert ext[|images|].id == im.id;
    forall x | x in ImageIds(images)
      ensures x in ImageIds(ext)
    {
      var k :| 0 <= k < |images| && images[k].id == x;
      assert ext[k].id == x;
    }
  }

  lemma AppendPitch(pitches: seq<PitchInfo>, p: PitchInfo)
    requires DistinctPitches(pitches) && !HasPitch(pitches, p.id)
    ensures PitchIds(pitches + [p]) == PitchIds(pitches) + {p.id}
    ensures DistinctPitches(pitches + [p])
  {
    var ext := pitches + [p];
    assert ext[|pitches|].id == p.id;
    forall x | x in PitchIds(pitches)
      ensures x in PitchIds(ext)
    {
      var k :| 0 <= k < |pitches| && pitches[k].id == x;
      assert ext[k].id == x;
    }
  }

  lemma HasImageIff(images: seq<Image>, x: int)
    ensures HasImage(images, x) <==> x in ImageIds(images)
  {
    if x in ImageIds(images) {
      var k :| 0 <= k < |images| && images[k].id == x;
    }
  }

  lemma HasPitchIff(pitches: seq<PitchInfo>, x: int)
    ensures HasPitch(pitches, x) <==> x in PitchIds(pitches)
  {
    if x in PitchIds(pitches) {
      var k :| 0 <= k < |pitches| && pitches[k].id == x;
    }
  }

  /** The images of a center as the reduce collects them: going through
      the rows in order, a row of the center with a truthy image id adds
      its image unless one with that id is already listed. */
  function RowImages(rows: seq<Row>, centerId: int): seq<Image>
  {
    if rows == [] then []
    else
      var prev := RowImages(rows[..|rows| - 1], centerId);
      var row := rows[|rows| - 1];
      if row.id == centerId && Present(row.imageId) && !HasImage(prev, row.imageId.value) then prev + [ImageOf(row)] else prev
  }

  /** The pitches of a center, collected the same way. */
  function RowPitches(rows: seq<Row>, centerId: int): seq<PitchInfo>
  {
    if rows == [] then []
    else
      var prev := RowPitches(rows[..|rows| - 1], centerId);
      var row := rows[|rows| - 1];
      if row.id == centerId && Present(row.pitchId) && !HasPitch(prev, row.pitchId.value) then prev + [PitchOf(row)] else prev
  }

  /** Row k is the first row of the center carrying the image's id, and
      the image is built from that row. */
  predicate FirstImageRow(rows: seq<Row>, centerId: int, k: int, img: Image)
  {
    && 0 <= k < |rows| && rows[k].id == centerId && Present(rows[k].imageId) && ImageOf(rows[k]) == img
    && forall k' :: 0 <= k' < k && rows[k'].id == centerId && Present(rows[k'].imageId) ==> rows[k'].imageId.value != img.id
  }

  /** Row k is the first row of the center carrying the pitch's id, and
      the pitch is built from that row. */
  predicate FirstPitchRow(rows: seq<Row>, centerId: int, k: int, p: PitchInfo)
  {
    && 0 <= k < |rows| && rows[k].id == centerId && Present(rows[k].pitchId) && PitchOf(rows[k]) == p
    && forall k' :: 0 <= k' < k && rows[k'].id == centerId && Present(rows[k'].pitchId) ==> rows[k'].pitchId.value != p.id
  }

  /** Some row of the center is the first one carrying this image. */
  ghost predicate HasImageRow(rows: seq<Row>, centerId: int, item: Image)
  {
    exists k :: FirstImageRow(rows, centerId, k, item)
  }

  /** Every listed image is built from the first row of the center that
      carries its id. */
  ghost predicate FromImageRows(rows: seq<Row>, centerId: int, items: seq<Image>)
  {
    forall j :: 0 <= j < |items| ==> HasImageRow(rows, centerId, items[j])
  }

  /** Some row of the center is the first one carrying this pitch. */
  ghost predicate HasPitchRow(rows: seq<Row>, centerId: int, item: PitchInfo)
  {
    exists k :: FirstPitchRow(rows, centerId, k, item)
  }

  /** Every listed pitch is built from the first row of the center that
      carries its id. */
  ghost predicate FromPitchRows(rows: seq<Row>, centerId: int, items: seq<PitchInfo>)
  {
    forall j :: 0 <= j < |items| ==> HasPitchRow(rows, centerId, items[j])
  }

  /** A center's collected images carry exactly the image ids of its rows,
      each once. */
  lemma {:induction false} RowImagesIds(rows: seq<Row>, centerId: int)
    ensures ImageIds(RowImages(rows, centerId)) == RowImageIds(rows, centerId)
    ensures DistinctImages(RowImages(rows, centerId))
  {
    if rows != [] {
      var prefix := rows[..|rows| - 1];
      var row := rows[|rows| - 1];
      var prev := RowImages(prefix, centerId);
      RowImagesIds(prefix, centerId);
      if row.id == centerId && Present(row.imageId) {
        if HasImage(prev, row.imageId.value) {
          HasImageIff(prev, row.imageId.value);
        } else {
          AppendImage(prev, ImageOf(row));
        }
      }
    }
  }

  /** A center's collected pitches carry exactly the pitch ids of its rows,
      each once. */
  lemma {:induction false} RowPitchesIds(rows: seq<Row>, centerId: int)
    ensures PitchIds(RowPitches(rows, centerId)) == RowPitchIds(rows, centerId)
    ensures DistinctPitches(RowPitches(rows, centerId))
  {
    if rows != [] {
      var prefix := rows[..|rows| - 1];
      var row := rows[|rows| - 1];
      var prev := RowPitches(prefix, centerId);
      RowPitchesIds(prefix, centerId);
      if row.id == centerId && Present(row.pitchId) {
        if HasPitch(prev, row.pitchId.value) {
          HasPitchIff(prev, row.pitchId.value);
        } else {
          AppendPitch(prev, PitchOf(row));
        }
      }
    }
  }

  /** Each collected image is the one built from the first row of the
      center that carries its id. */
  lemma {:induction false} RowImagesFirstRows(rows: seq<Row>, centerId: int)
    ensures FromImageRows(rows, centerId, RowImages(rows, centerId))
  {
    if rows != [] {
      var prefix := rows[..|rows| - 1];
      var row := rows[|rows| - 1];
      assert rows == prefix + [row];
      var prev := RowImages(prefix, centerId);
      var cur := RowImages(rows, centerId);
      RowImagesFirstRows(prefix, centerId);
      forall j | 0 <= j < |cur|
        ensures HasImageRow(rows, centerId, cur[j])
      {
        if j < |prev| {
          assert cur[j] == prev[j];
          assert HasImageRow(prefix, centerId, prev[j]);
          var k :| FirstImageRow(prefix, centerId, k, prev[j]);
          assert FirstImageRow(rows, centerId, k, cur[j]);
        } else {
          var x := row.imageId.value;
          RowImagesIds(prefix, centerId);
          HasImageIff(prev, x);
          forall k' | 0 <= k' < |prefix| && prefix[k'].id == centerId && Present(prefix[k'].imageId)
            ensures prefix[k'].imageId.value != x
          {
            RowImageIdsSpec(prefix, centerId, prefix[k'].imageId.value);
          }
          assert FirstImageRow(rows, centerId, |prefix|, cur[j]);
        }
      }
      assert FromImageRows(rows, centerId, cur);
    }
  }

  /** Each collected pitch is the one built from the first row of the
      center that carries its id. */
  lemma {:induction false} RowPitchesFirstRows(rows: seq<Row>, centerId: int)
    ensures FromPitchRows(rows, centerId, RowPitches(rows, centerId))
  {
    if rows != [] {
      var prefix := rows[..|rows| - 1];
      var row := rows[|rows| - 1];
      assert rows == prefix + [row];
      var prev := RowPitches(prefix, centerId);
      var cur := RowPitches(rows, centerId);
      RowPitchesFirstRows(prefix, centerId);
      forall j | 0 <= j < |cur|
        ensures HasPitchRow(rows, centerId, cur[j])
      {
        if j < |prev| {
          assert cur[j] == prev[j];
          assert HasPitchRow(prefix, centerId, prev[j]);
          var k :| FirstPitchRow(prefix, centerId, k, prev[j]);
          assert FirstPitchRow(rows, centerId, k, cur[j]);
        } else {
          var x := row.pitchId.value;
          RowPitchesIds(prefix, centerId);
          HasPitchIff(prev, x);
          forall k' | 0 <= k' < |prefix| && prefix[k'].id == centerId && Present(prefix[k'].pitchId)
            ensures prefix[k'].pitchId.value != x
          {
            RowPitchIdsSpec(prefix, centerId, prefix[k'].pitchId.value);
          }
          assert FirstPitchRow(rows, centerId, |prefix|, cur[j]);
        }
      }
      assert FromPitchRows(rows, centerId, cur);
    }
  }

  /** An entry's images are its center's collected images: exactly the
      image ids its rows carry, each once, each image built from the first
      row carrying its id, in order of first appearance. */
  ghost predicate ImagesOk(c: Center, rows: seq<Row>)
  {
    && c.images == RowImages(rows, c.base.id)
    && ImageIds(c.images) == RowImageIds(rows, c.base.id) && DistinctImages(c.images)
    && FromImageRows(rows, c.base.id, c.images)
  }

  /** An entry's pitches are its center's collected pitches: exactly the
      pitch ids its rows carry, each once, each pitch built from the first
      row carrying its id, in order of first appearance. */
  ghost predicate PitchesOk(c: Center, rows: seq<Row>)
  {
    && c.pitches == RowPitches(rows, c.base.id)
    && PitchIds(c.pitches) == RowPitchIds(rows, c.base.id) && DistinctPitches(c.pitches)
    && FromPitchRows(rows, c.base.id, c.pitches)
  }

  /** A center none of whose rows has been seen carries nothing yet. */
  lemma {:induction false} NoRowsNoItems(rows: seq<Row>, id: int)
    requires forall k :: 0 <= k < |rows| ==> rows[k].id != id
    ensures RowImages(rows, id) == [] && RowPitches(rows, id) == []
  {
    if rows != [] {
      NoRowsNoItems(rows[..|rows| - 1], id);
    }
  }

  /** A center not yet in the accumulator has no rows so far. */
  lemma NewCenterHasNoRows(prefix: seq<Row>, id: int)
    requires CenterIds(Group(prefix)) == Dedup(RowIds(prefix))
    requires id !in CenterIds(Group(prefix))
    ensures RowImages(prefix, id) == [] && RowPitches(prefix, id) == []
  {
    forall k | 0 <= k < |prefix|
      ensures prefix[k].id != id
    {
      assert RowIds(prefix)[k] in RowIds(prefix);
    }
    NoRowsNoItems(prefix, id);
  }

  /** One step of the reduce keeps every entry's images equal to its
      center's collected images. */
  lemma ImageListStep(acc: seq<Center>, prefix: seq<Row>, row: Row, i: nat)
    requires forall a, b :: 0 <= a < b < |acc| ==> acc[a].base.id != acc[b].base.id
    requires forall j :: 0 <= j < |acc| ==> acc[j].images == RowImages(prefix, acc[j].base.id)
    requires row.id !in CenterIds(acc) ==> RowImages(prefix, row.id) == []
    requires i < |AddRow(acc, row)|
    ensures AddRow(acc, row)[i].images == RowImages(prefix + [row], AddRow(acc, row)[i].base.id)
  {
    var rows := prefix + [row];
    var out := AddRow(acc, row);
    assert rows[..|rows| - 1] == prefix;
    match IndexOf(acc, row.id)
    case None =>
      if i == |acc| {
        assert out[i] == NewCenter(row);
        assert row.id !in CenterIds(acc);
      } else {
        assert out[i] == acc[i];
      }
    case Some(j) =>
      if i == j {
        assert out[i] == Merge(acc[i], row);
      } else {
        assert acc[i].base.id != acc[j].base.id;
        assert out[i] == acc[i];
      }
  }

  /** One step of the reduce keeps every entry's pitches equal to its
      center's collected pitches. */
  lemma PitchListStep(acc: seq<Center>, prefix: seq<Row>, row: Row, i: nat)
    requires forall a, b :: 0 <= a < b < |acc| ==> acc[a].base.id != acc[b].base.id
    requires forall j :: 0 <= j < |acc| ==> acc[j].pitches == RowPitches(prefix, acc[j].base.id)
    requires row.id !in CenterIds(acc) ==> RowPitches(prefix, row.id) == []
    requires i < |AddRow(acc, row)|
    ensures AddRow(acc, row)[i].pitches == RowPitches(prefix + [row], AddRow(acc, row)[i].base.id)
  {
    var rows := prefix + [row];
    var out := AddRow(acc, row);
    assert rows[..|rows| - 1] == prefix;
    match IndexOf(acc, row.id)
    case None =>
      if i == |acc| {
        assert out[i] == NewCenter(row);
        assert row.id !in CenterIds(acc);
      } else {
        assert out[i] == acc[i];
      }
    case Some(j) =>
      if i == j {
        assert out[i] == Merge(acc[i], row);
      } else {
        assert acc[i].base.id != acc[j].base.id;
        assert out[i] == acc[i];
      }
  }

  /** The reduce gives each entry exactly its center's collected images. */
  lemma {:induction false} GroupImageLists(rows: seq<Row>)
    ensures forall i :: 0 <= i < |Group(rows)| ==> Group(rows)[i].images == RowImages(rows, Group(rows)[i].base.id)
  {
    if rows != [] {
      var prefix := rows[..|rows| - 1];
      var row := rows[|rows| - 1];
      assert rows == prefix + [row];
      GroupImageLists(prefix);
      GroupIds(prefix);
      if row.id !in CenterIds(Group(prefix)) {
        NewCenterHasNoRows(prefix, row.id);
      }
      forall i | 0 <= i < |Group(rows)|
        ensures Group(rows)[i].images == RowImages(rows, Group(rows)[i].base.id)
      {
        assert forall a :: 0 <= a < |Group(prefix)| ==> Group(prefix)[a].base.id == CenterIds(Group(prefix))[a];
        ImageListStep(Group(prefix), prefix, row, i);
      }
    }
  }

  /** The reduce gives each entry exactly its center's collected pitches. */
  lemma {:induction false} GroupPitchLists(rows: seq<Row>)
    ensures forall i :: 0 <= i < |Group(rows)| ==> Group(rows)[i].pitches == RowPitches(rows, Group(rows)[i].base.id)
  {
    if rows != [] {
      var prefix := rows[..|rows| - 1];
      var row := rows[|rows| - 1];
      assert rows == prefix + [row];
      GroupPitchLists(prefix);
      GroupIds(prefix);
      if row.id !in CenterIds(Group(prefix)) {
        NewCenterHasNoRows(prefix, row.id);
      }
      forall i | 0 <= i < |Group(rows)|
        ensures Group(rows)[i].pitches == RowPitches(rows, Group(rows)[i].base.id)
      {
        assert forall a :: 0 <= a < |Group(prefix)| ==> Group(prefix)[a].base.id == CenterIds(Group(prefix))[a];
        PitchListStep(Group(prefix), prefix, row, i);
      }
    }
  }

  /** Each entry's images are exactly the images its center's rows carry,
      each once, each built from the first row carrying its id. */
  lemma GroupImages(rows: seq<Row>)
    ensures forall i :: 0 <= i < |Group(rows)| ==> ImagesOk(Group(rows)[i], rows)
  {
    GroupImageLists(rows);
    forall i | 0 <= i < |Group(rows)|
      ensures ImagesOk(Group(rows)[i], rows)
    {
      RowImagesIds(rows, Group(rows)[i].base.id);
      RowImagesFirstRows(rows, Group(rows)[i].base.id);
    }
  }

  /** Each entry's pitches are exactly the pitches its center's rows carry,
      each once, each built from the first row carrying its id. */
  lemma GroupPitches(rows: seq<Row>)
    ensures forall i :: 0 <= i < |Group(rows)| ==> PitchesOk(Group(rows)[i], rows)
  {
    GroupPitchLists(rows);
    forall i | 0 <= i < |Group(rows)|
      ensures PitchesOk(Group(rows)[i], rows)
    {
      RowPitchesIds(rows, Group(rows)[i].base.id);
      RowPitchesFirstRows(rows, Group(rows)[i].base.id);
    }
  }
}
