/** Which of a solid pixel's six cube faces are emitted (`cull_faces`, src/lib.rs:190-225). */
module Culling {
  import opened Types
  import opened Pixels

  /** The six faces of a voxel (src/lib.rs:180-187). */
  datatype Face = Up | Down | Left | Right | Forward | Back

  /** The position of each face in the order `cull_faces` pushes faces:
      Up, Down, then the x-axis faces (Right before Left), then the y-axis faces (Back before Forward). */
  function PushRank(face: Face): nat {
    match face
    case Up => 0
    case Down => 1
    case Right => 2
    case Left => 3
    case Back => 4
    case Forward => 5
  }

  /** Faces listed in strictly increasing push rank. */
  predicate InPushOrder(faces: seq<Face>) {
    forall i, j :: 0 <= i < j < |faces| ==> PushRank(faces[i]) < PushRank(faces[j])
  }

  predicate NoDuplicates(faces: seq<Face>) {
    forall i, j :: 0 <= i < j < |faces| ==> faces[i] != faces[j]
  }

  /** The program's rule, face by face: Up and Down always; on the x-axis, column 0 shows only Left,
      the last column (when it is not column 0) shows only Right, and any other column shows Right
      when its right neighbour is empty and Left when its left neighbour is empty; likewise on the
      y-axis with Forward (row 0) and Back (last row). */
  predicate Shown(img: Image, x: nat, y: nat, face: Face)
    requires img.Valid() && x < img.width && y < img.height
  {
    match face
    case Up => true
    case Down => true
    case Left => x == 0 || (x != img.width - 1 && IsEmptyPixel(img.Pixel(x - 1, y)))
    case Right => x != 0 && (x == img.width - 1 || IsEmptyPixel(img.Pixel(x + 1, y)))
    case Forward => y == 0 || (y != img.height - 1 && IsEmptyPixel(img.Pixel(x, y - 1)))
    case Back => y != 0 && (y == img.height - 1 || IsEmptyPixel(img.Pixel(x, y + 1)))
  }

  /** The x-axis faces `cull_faces` pushes for the pixel at (x, y). */
  function XFaces(img: Image, x: nat, y: nat): seq<Face>
    requires img.Valid() && x < img.width && y < img.height
  {
    if x == 0 then [Left]
    else if x == img.width - 1 then [Right]
    else ((if IsEmptyPixel(img.Pixel(x + 1, y)) then [Right] else [])
          + (if IsEmptyPixel(img.Pixel(x - 1, y)) then [Left] else []))
  }

  /** The y-axis faces `cull_faces` pushes for the pixel at (x, y). */
  function YFaces(img: Image, x: nat, y: nat): seq<Face>
    requires img.Valid() && x < img.width && y < img.height
  {
    if y == 0 then [Forward]
    else if y == img.height - 1 then [Back]
    else ((if IsEmptyPixel(img.Pixel(x, y + 1)) then [Back] else [])
          + (if IsEmptyPixel(img.Pixel(x, y - 1)) then [Forward] else []))
  }

  /** The faces `cull_faces` returns for the pixel at (x, y), as a value. Every neighbour it reads
      is inside the grid: `Image.Pixel` requires it. */
  function CulledFaces(img: Image, x: nat, y: nat): seq<Face>
    requires img.Valid() && x < img.width && y < img.height
  {
    [Up, Down] + XFaces(img, x, y) + YFaces(img, x, y)
  }

  /** `cull_faces`: starts from [Up, Down] and pushes the lateral faces one by one. */
  method CullFaces(img: Image, x: nat, y: nat) returns (faces: seq<Face>)
    requires img.Valid() && x < img.width && y < img.height
    ensures faces == CulledFaces(img, x, y)
    ensures |faces| >= 2 && faces[..2] == [Up, Down]
    ensures forall face :: face in faces <==> Shown(img, x, y, face)
    ensures InPushOrder(faces) && NoDuplicates(faces) && |faces| <= 6
  {
    faces := [Up, Down];
    if x == 0 {
      faces := faces + [Left];
    } else if x == img.width - 1 {
      faces := faces + [Right];
    } else {
      if IsEmptyPixel(img.Pixel(x + 1, y)) {
        faces := faces + [Right];
      }
      if IsEmptyPixel(img.Pixel(x - 1, y)) {
        faces := faces + [Left];
      }
    }
    ghost var prefix := faces;
    assert prefix == [Up, Down] + XFaces(img, x, y);
    ghost var pushed: seq<Face> := [];
    if y == 0 {
      faces := faces + [Forward];
      pushed := [Forward];
    } else if y == img.height - 1 {
      faces := faces + [Back];
      pushed := [Back];
    } else {
      if IsEmptyPixel(img.Pixel(x, y + 1)) {
        faces := faces + [Back];
        pushed := [Back];
      }
      if IsEmptyPixel(img.Pixel(x, y - 1)) {
        SnocAssoc(prefix, pushed, Forward);
        faces := faces + [Forward];
        pushed := pushed + [Forward];
      }
    }
    assert faces == prefix + pushed && pushed == YFaces(img, x, y);
    CulledFacesSpec(img, x, y);
  }

  /** In a list in push order, the face at index i has rank at least i. */
  lemma {:induction false} RankAtLeastIndex(faces: seq<Face>, i: nat)
    requires InPushOrder(faces) && i < |faces|
    ensures PushRank(faces[i]) >= i
  {
    if i > 0 {
      RankAtLeastIndex(faces, i - 1);
    }
  }

  /** A list in push order has at most six faces. */
  lemma AtMostSixFaces(faces: seq<Face>)
    requires InPushOrder(faces)
    ensures |faces| <= 6
  {
    if faces != [] {
      RankAtLeastIndex(faces, |faces| - 1);
    }
  }

  /** A list in push order is determined by which faces it contains. */
  lemma {:induction false} PushOrderUnique(a: seq<Face>, b: seq<Face>)
    requires InPushOrder(a) && InPushOrder(b)
    requires forall face :: face in a <==> face in b
    ensures a == b
  {
    if a == [] {
      FirstIsMember(b);
    } else {
      assert a[0] in b;
      assert b[0] in a;
      var i :| 0 <= i < |b| && b[i] == a[0];
      var j :| 0 <= j < |a| && a[j] == b[0];
      assert a[0] == b[0] by {
        assert PushRank(b[0]) <= PushRank(b[i]);
        assert PushRank(a[0]) <= PushRank(a[j]);
      }
      forall face
        ensures face in a[1..] <==> face in b[1..]
      {
        if face in a[1..] {
          var k :| 1 <= k < |a| && a[k] == face;
          assert face != b[0] by { assert PushRank(a[0]) < PushRank(a[k]); }
          assert face in b;
        }
        if face in b[1..] {
          var k :| 1 <= k < |b| && b[k] == face;
          assert face != a[0] by { assert PushRank(b[0]) < PushRank(b[k]); }
          assert face in a;
        }
      }
      PushOrderUnique(a[1..], b[1..]);
      assert a == [a[0]] + a[1..] && b == [b[0]] + b[1..];
    }
  }

  /** The x-axis part: Right and/or Left exactly as the rule shows them, Right first. */
  lemma XFacesSpec(img: Image, x: nat, y: nat)
    requires img.Valid() && x < img.width && y < img.height
    ensures var xs := XFaces(img, x, y);
      && InPushOrder(xs)
      && (forall i :: 0 <= i < |xs| ==> xs[i] == Right || xs[i] == Left)
      && (forall face :: face in xs <==> (face == Right || face == Left) && Shown(img, x, y, face))
  {
  }

  /** The y-axis part: Back and/or Forward exactly as the rule shows them, Back first. */
  lemma YFacesSpec(img: Image, x: nat, y: nat)
    requires img.Valid() && x < img.width && y < img.height
    ensures var ys := YFaces(img, x, y);
      && InPushOrder(ys)
      && (forall i :: 0 <= i < |ys| ==> ys[i] == Back || ys[i] == Forward)
      && (forall face :: face in ys <==> (face == Back || face == Forward) && Shown(img, x, y, face))
  {
  }

  /** What `cull_faces` promises: it starts with [Up, Down], holds exactly the faces the rule shows,
      in push order, without duplicates, and between two and six of them. */
  lemma CulledFacesSpec(img: Image, x: nat, y: nat)
    requires img.Valid() && x < img.width && y < img.height
    ensures var faces := CulledFaces(img, x, y);
      && |faces| >= 2 && faces[..2] == [Up, Down]
      && (forall face :: face in faces <==> Shown(img, x, y, face))
      && InPushOrder(faces) && NoDuplicates(faces) && |faces| <= 6
  {
    var xs, ys := XFaces(img, x, y), YFaces(img, x, y);
    XFacesSpec(img, x, y);
    YFacesSpec(img, x, y);
    var faces := CulledFaces(img, x, y);
    assert faces == [Up, Down] + xs + ys;
    forall face
      ensures face in faces <==> Shown(img, x, y, face)
    {
      assert face in faces <==> face in [Up, Down] || face in xs || face in ys;
    }
    forall i, j | 0 <= i < j < |faces|
      ensures PushRank(faces[i]) < PushRank(faces[j])
    {
      if i >= 2 + |xs| {
        assert faces[i] == ys[i - 2 - |xs|] && faces[j] == ys[j - 2 - |xs|];
      } else if i >= 2 && j < 2 + |xs| {
        assert faces[i] == xs[i - 2] && faces[j] == xs[j - 2];
      } else if i >= 2 {
        assert faces[i] == xs[i - 2] && faces[j] == ys[j - 2 - |xs|];
      } else if j >= 2 + |xs| {
        assert faces[j] == ys[j - 2 - |xs|];
      } else if j >= 2 {
        assert faces[j] == xs[j - 2];
      }
    }
    AtMostSixFaces(faces);
  }

  /** The boundary rule: on each axis an edge pixel gets exactly one face of that axis, without any
      neighbour being inspected: Left at column 0, otherwise Right at the last column; Forward at
      row 0, otherwise Back at the last row. A one-column image therefore never gets a Right face. */
  lemma CulledFacesAtEdges(img: Image, x: nat, y: nat)
    requires img.Valid() && x < img.width && y < img.height
    ensures var faces := CulledFaces(img, x, y);
      && (x == 0 ==> Left in faces && Right !in faces)
      && (x != 0 && x == img.width - 1 ==> Right in faces && Left !in faces)
      && (y == 0 ==> Forward in faces && Back !in faces)
      && (y != 0 && y == img.height - 1 ==> Back in faces && Forward !in faces)
  {
    CulledFacesSpec(img, x, y);
    assert Shown(img, x, y, Left) == (x == 0 || (x != img.width - 1 && IsEmptyPixel(img.Pixel(x - 1, y))));
  }

  /** The interior rule: away from the edges a lateral face is emitted iff the neighbour it faces is empty. */
  lemma CulledFacesInterior(img: Image, x: nat, y: nat)
    requires img.Valid() && x < img.width && y < img.height
    ensures var faces := CulledFaces(img, x, y);
      && (0 < x < img.width - 1 ==>
            && (Right in faces <==> IsEmptyPixel(img.Pixel(x + 1, y)))
            && (Left in faces <==> IsEmptyPixel(img.Pixel(x - 1, y))))
      && (0 < y < img.height - 1 ==>
            && (Back in faces <==> IsEmptyPixel(img.Pixel(x, y + 1)))
            && (Forward in faces <==> IsEmptyPixel(img.Pixel(x, y - 1))))
  {
    CulledFacesSpec(img, x, y);
  }

  /** Two horizontally adjacent solid pixels hide their shared face on both sides: the same
      emptiness test is applied from either side. */
  lemma SharedFaceHiddenX(img: Image, x: nat, y: nat)
    requires img.Valid() && x + 1 < img.width && y < img.height
    requires !IsEmptyPixel(img.Pixel(x, y)) && !IsEmptyPixel(img.Pixel(x + 1, y))
    ensures Right !in CulledFaces(img, x, y) && Left !in CulledFaces(img, x + 1, y)
  {
    SharedFaceNotShownX(img, x, y);
    HiddenFacePair(img, x, y, Right, x + 1, y, Left);
  }

  /** Two vertically adjacent solid pixels hide their shared face on both sides. */
  lemma SharedFaceHiddenY(img: Image, x: nat, y: nat)
    requires img.Valid() && x < img.width && y + 1 < img.height
    requires !IsEmptyPixel(img.Pixel(x, y)) && !IsEmptyPixel(img.Pixel(x, y + 1))
    ensures Back !in CulledFaces(img, x, y) && Forward !in CulledFaces(img, x, y + 1)
  {
    SharedFaceNotShownY(img, x, y);
    HiddenFacePair(img, x, y, Back, x, y + 1, Forward);
  }

  /** The rule shows neither side of the face two solid pixels share, on the x-axis ... */
  lemma SharedFaceNotShownX(img: Image, x: nat, y: nat)
    requires img.Valid() && x + 1 < img.width && y < img.height
    requires !IsEmptyPixel(img.Pixel(x, y)) && !IsEmptyPixel(img.Pixel(x + 1, y))
    ensures !Shown(img, x, y, Right) && !Shown(img, x + 1, y, Left)
  {
  }

  /** ... and on the y-axis. */
  lemma SharedFaceNotShownY(img: Image, x: nat, y: nat)
    requires img.Valid() && x < img.width && y + 1 < img.height
    requires !IsEmptyPixel(img.Pixel(x, y)) && !IsEmptyPixel(img.Pixel(x, y + 1))
    ensures !Shown(img, x, y, Back) && !Shown(img, x, y + 1, Forward)
  {
  }

  /** Two faces the rule does not show are not in their lists. */
  lemma HiddenFacePair(img: Image, x: nat, y: nat, face: Face, x': nat, y': nat, face': Face)
    requires img.Valid() && x < img.width && y < img.height && !Shown(img, x, y, face)
    requires x' < img.width && y' < img.height && !Shown(img, x', y', face')
    ensures face !in CulledFaces(img, x, y) && face' !in CulledFaces(img, x', y')
  {
    HiddenFace(img, x, y, face);
    HiddenFace(img, x', y', face');
  }

  /** A face the rule does not show is not in the list. */
  lemma HiddenFace(img: Image, x: nat, y: nat, face: Face)
    requires img.Valid() && x < img.width && y < img.height && !Shown(img, x, y, face)
    ensures face !in CulledFaces(img, x, y)
  {
    CulledFacesSpec(img, x, y);
  }

  // ---------------------------------------------------------------------------------------------
  // The evidently intended rule: a lateral face is visible iff the cell it faces lies outside the
  // image or holds an empty pixel, on each axis independently.

  /** The cell at (nx, ny) cannot hide a face: it is outside the grid or its pixel is empty. */
  predicate Exposed(img: Image, nx: int, ny: int)
    requires img.Valid()
  {
    !(0 <= nx < img.width && 0 <= ny < img.height) || IsEmptyPixel(img.Pixel(nx, ny))
  }

  /** Visibility of each face of the pixel at (x, y) under the four-neighbour test. */
  predicate Visible(img: Image, x: nat, y: nat, face: Face)
    requires img.Valid()
  {
    match face
    case Up => true
    case Down => true
    case Left => Exposed(img, x - 1, y)
    case Right => Exposed(img, x + 1, y)
    case Forward => Exposed(img, x, y - 1)
    case Back => Exposed(img, x, y + 1)
  }

  /** The corrected `cull_faces`: each edge test replaces only the neighbour test of its own side. */
  function IntendedFaces(img: Image, x: nat, y: nat): seq<Face>
    requires img.Valid() && x < img.width && y < img.height
  {
    [Up, Down]
    + (if x == img.width - 1 || IsEmptyPixel(img.Pixel(x + 1, y)) then [Right] else [])
    + (if x == 0 || IsEmptyPixel(img.Pixel(x - 1, y)) then [Left] else [])
    + (if y == img.height - 1 || IsEmptyPixel(img.Pixel(x, y + 1)) then [Back] else [])
    + (if y == 0 || IsEmptyPixel(img.Pixel(x, y - 1)) then [Forward] else [])
  }

  /** The corrected rule emits exactly the visible faces, in push order, so no solid/empty boundary
      and no image border is left open. */
  lemma IntendedFacesSpec(img: Image, x: nat, y: nat)
    requires img.Valid() && x < img.width && y < img.height
    ensures var faces := IntendedFaces(img, x, y);
      && |faces| >= 2 && faces[..2] == [Up, Down]
      && (forall face :: face in faces <==> Visible(img, x, y, face))
      && InPushOrder(faces) && NoDuplicates(faces) && |faces| <= 6
  {
    var faces := IntendedFaces(img, x, y);
    assert InPushOrder(faces);
    AtMostSixFaces(faces);
  }

  /** The program never emits a hidden face: everything it emits is visible. */
  lemma CulledFacesAreVisible(img: Image, x: nat, y: nat, face: Face)
    requires img.Valid() && x < img.width && y < img.height
    requires face in CulledFaces(img, x, y)
    ensures Visible(img, x, y, face)
  {
    CulledFacesSpec(img, x, y);
  }

  /** Away from the image border the program and the corrected rule agree. */
  lemma CulledFacesIntendedInside(img: Image, x: nat, y: nat)
    requires img.Valid() && 0 < x < img.width - 1 && 0 < y < img.height - 1
    ensures CulledFaces(img, x, y) == IntendedFaces(img, x, y)
  {
    CulledFacesSpec(img, x, y);
    IntendedFacesSpec(img, x, y);
    PushOrderUnique(CulledFaces(img, x, y), IntendedFaces(img, x, y));
  }

  /** An opaque pixel beside a transparent one, in a one-row image. */
  function TwoByOne(): (img: Image)
    ensures img.Valid()
  {
    Image(2, 1, [[Rgba(255, 255, 255, 255), Rgba(0, 0, 0, 0)]])
  }

  /** The program leaves faces open: at column 0 of TwoByOne the right neighbour is empty, yet no Right
      face is emitted; and in this one-row image no Back face is emitted, though row 0 is also the last. */
  lemma CulledFacesMissVisibleFaces()
    ensures Visible(TwoByOne(), 0, 0, Right) && Right !in CulledFaces(TwoByOne(), 0, 0)
    ensures Visible(TwoByOne(), 0, 0, Back) && Back !in CulledFaces(TwoByOne(), 0, 0)
    ensures CulledFaces(TwoByOne(), 0, 0) == [Up, Down, Left, Forward]
    ensures IntendedFaces(TwoByOne(), 0, 0) == [Up, Down, Right, Left, Back, Forward]
  {
    var img := TwoByOne();
    assert IsEmptyPixel(img.Pixel(1, 0));
  }
}
