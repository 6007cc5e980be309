/**
 The ARToolKit 4 tracker: its registry of markers, loaded from a manifest
 file, and the per-frame update that hands each marker its detection; the
 detection threshold; the pixel-format bookkeeping of `setImageRaw`; and
 the undistortion mesh.

 The detector (`arDetectMarker`) is a parameter: given the threshold it
 answers with the frame's detections or an error.  The image itself is
 reduced to whether it is present.
 */
module ARToolKit4Tracker {
  import opened Wrappers
  import opened Selection
  import opened Markers
  import opened Manifest
  import opened PixelFormat
  import opened Distortion
  import opened Mesh
  import opened SeqLemmas

  /** AR_DEFAULT_LABELING_THRESH. */
  const DefaultLabelingThreshold := 100

  /** What `arDetectMarker` reports for one frame. */
  datatype DetectResult = Detected(dets: seq<Detection>) | DetectError

  /** `osg::clampBetween(v, lo, hi)`: first raised to `lo`, then lowered to `hi`. */
  function ClampBetween(v: int, lo: int, hi: int): (r: int)
    ensures r <= hi
    ensures lo <= hi ==> lo <= r
    ensures lo <= v <= hi ==> r == v
    ensures v < lo && lo <= hi ==> r == lo
    ensures v > hi ==> r == hi
  {
    var raised := if v < lo then lo else v;
    if raised > hi then hi else raised
  }

  function Min(a: int, b: int): int
  {
    if a < b then a else b
  }

  function Max(a: int, b: int): int
  {
    if a < b then b else a
  }

  /** Clamping is `min(max(v, lo), hi)`. */
  lemma ClampIsMinMax(v: int, lo: int, hi: int)
    ensures ClampBetween(v, lo, hi) == Min(Max(v, lo), hi)
  {
  }

  /** Clamping an already clamped value changes nothing. */
  lemma ClampIdempotent(v: int, lo: int, hi: int)
    requires lo <= hi
    ensures ClampBetween(ClampBetween(v, lo, hi), lo, hi) == ClampBetween(v, lo, hi)
  {
  }

  /** Clamping keeps the order of values. */
  lemma ClampMonotone(v: int, w: int, lo: int, hi: int)
    requires v <= w
    ensures ClampBetween(v, lo, hi) <= ClampBetween(w, lo, hi)
  {
  }

  /**
   The registry bookkeeping of one entry of `setupMarkers`: a failing entry
   leaves the registry as the whole manifest's registration has it, and a
   succeeding one extends the registered prefix by itself.
   */
  lemma SetupStep(initial: seq<Marker>, done: seq<Entry>, e: Entry, rest: seq<Entry>, all: seq<Entry>,
                  loader: Loader, before: seq<Marker>, after: seq<Marker>)
    requires done + ([e] + rest) == all
    requires Register(done, loader).ok && before == initial + Register(done, loader).added
    requires Configure(e, loader).None? ==> after == before
    requires Configure(e, loader).Some? ==> after == before + [Configure(e, loader).value]
    ensures Configure(e, loader).None? ==> after == initial + Register(all, loader).added && !Register(all, loader).ok
    ensures Configure(e, loader).Some? ==>
              && (done + [e]) + rest == all
              && Register(done + [e], loader).ok
              && after == initial + Register(done + [e], loader).added
  {
    RegisterStep(done, e, rest, loader);
    AppendAssoc(done, [e], rest);
    if Configure(e, loader).Some? {
      AppendAssoc(initial, Register(done, loader).added, [Configure(e, loader).value]);
    }
  }

  /** The strip of row `r` as `createUndistortedMesh` writes it out. */
  lemma StripStart(r: nat)
    requires r < Rows
    ensures Strips()[r] == DrawArrays(QuadStrip, r * 2 * (Cols + 1), 2 * (Cols + 1))
  {
  }

  class Tracker {
    /** m_threshold */
    var threshold: int
    /** m_debugmode */
    var debugMode: bool
    /** m_marker_num: the number of detections of the last frame. */
    var markerNum: int
    /** m_markerlist */
    var markers: seq<Marker>
    /** Whether the current image pointer is non-null. */
    var hasImage: bool
    /** The format of the current image; None before the first image. */
    var imageFormat: Option<VideoFormat>
    /** m_artoolkit_pixformat; not set until a supported format arrives. */
    var pixFormat: Option<ArPixelFormat>
    /** m_artoolkit_pixsize */
    var pixSize: int
    /** The camera's dist_factor, set by `init`. */
    var distFactor: DistFactor

    /** A tracker with the default threshold, debugging off and no markers. */
    constructor ()
      ensures threshold == DefaultLabelingThreshold && !debugMode && markerNum == 0
      ensures markers == [] && !hasImage && imageFormat == None && pixFormat == None
    {
      threshold := DefaultLabelingThreshold;
      debugMode := false;
      markerNum := 0;
      markers := [];
      hasImage := false;
      imageFormat := None;
      pixFormat := None;
    }

    /** `setThreshold`: the stored threshold is the argument clamped to [0, 255]. */
    method SetThreshold(thresh: int)
      modifies this`threshold
      ensures threshold == ClampBetween(thresh, 0, 255)
      ensures 0 <= threshold <= 255
      ensures 0 <= thresh <= 255 ==> threshold == thresh
    {
      threshold := ClampBetween(thresh, 0, 255);
    }

    method GetThreshold() returns (t: int)
      ensures t == threshold
    {
      t := threshold;
    }

    /**
     `setImageRaw`: when the format differs from the current one, a supported
     format selects the detector format and pixel size and any other format
     leaves both as they were; then the image and its format are recorded.
     */
    method SetImageRaw(image: bool, format: VideoFormat)
      modifies this`hasImage, this`imageFormat, this`pixFormat, this`pixSize
      ensures hasImage == image && imageFormat == Some(format)
      ensures old(imageFormat) != Some(format) && Translate(format).Some? ==>
                pixFormat == Some(Translate(format).value.format) && pixSize == Translate(format).value.pixelSize
      ensures old(imageFormat) == Some(format) || Translate(format).None? ==>
                pixFormat == old(pixFormat) && pixSize == old(pixSize)
    {
      if imageFormat != Some(format) {
        match Translate(format)
        case Some(t) =>
          pixFormat := Some(t.format);
          pixSize := t.pixelSize;
        case None =>
      }
      hasImage := image;
      imageFormat := Some(format);
    }

    /**
     `addSingleMarker`: when the pattern loads, the new marker is appended
     and its index returned; otherwise -1 is returned and the registry is
     left as it was.
     */
    method AddSingleMarker(pattFile: string, width: string, centerX: string, centerY: string, loader: Loader)
      returns (index: int)
      modifies this`markers
      ensures loader.single(pattFile, width, centerX, centerY).None? ==> index == -1 && markers == old(markers)
      ensures loader.single(pattFile, width, centerX, centerY).Some? ==>
                && markers == old(markers) + [Single(pattFile, width, centerX, centerY,
                                                     loader.single(pattFile, width, centerX, centerY).value, [])]
                && index == |markers| - 1
    {
      match loader.single(pattFile, width, centerX, centerY)
      case None =>
        return -1;
      case Some(id) =>
        markers := markers + [Single(pattFile, width, centerX, centerY, id, [])];
        return |markers| - 1;
    }

    /**
     `addMultiMarker`: when the configuration loads, the new marker is
     appended and its index returned; otherwise -1 is returned and the
     registry is left as it was.
     */
    method AddMultiMarker(multiFile: string, loader: Loader) returns (index: int)
      modifies this`markers
      ensures !loader.multi(multiFile) ==> index == -1 && markers == old(markers)
      ensures loader.multi(multiFile) ==> markers == old(markers) + [Multi(multiFile, [])] && index == |markers| - 1
    {
      if !loader.multi(multiFile) {
        return -1;
      }
      markers := markers + [Multi(multiFile, [])];
      return |markers| - 1;
    }

    /**
     The blank-line loop of `setupMarkers`: read lines until one that is not
     blank once trimmed, or until end-of-file.  The name is the last line
     read, cut at its end by `trim`.
     */
    static method ReadPatternName(st0: Stream) returns (patternName: string, st: Stream)
      ensures (patternName, st) == ReadName(st0, "")
    {
      st := st0;
      var line := "";
      var trimmed := Trim(line, " ");
      patternName := trimmed.1;
      while trimmed.0 == [] && !st.eof
        invariant ReadName(st, line) == ReadName(st0, "")
        invariant trimmed == Trim(line, " ") && patternName == trimmed.1
        decreases |st.text| - st.pos, if st.eof then 0 else 1
      {
        var got := GetLine(st);
        line, st := got.0, got.1;
        trimmed := Trim(line, " ");
        patternName := trimmed.1;
      }
    }

    /**
     `setupMarkers`: an unopened file (None) fails at once.  Otherwise the
     markers of the manifest's entries are appended in file order up to the
     first entry whose type is unrecognised or whose marker fails to load;
     the markers appended before it stay, and the result is true exactly
     when no entry failed.
     */
    method SetupMarkers(file: Option<string>, loader: Loader) returns (ret: bool)
      modifies this`markers
      ensures file.None? ==> !ret && markers == old(markers)
      ensures file.Some? ==>
                && markers == old(markers) + Register(ManifestEntries(file.value), loader).added
                && ret == Register(ManifestEntries(file.value), loader).ok
    {
      if file.None? {
        return false;
      }
      var text := file.value;
      ghost var all := ManifestEntries(text);
      var counted := ReadInt(StreamState(text, 0, false));
      var patternNum := counted.0;
      var st := counted.1;
      ret := true;
      var patternName, patternType := "", "";
      var i := 0;
      ghost var done: seq<Entry> := [];
      ghost var remaining := patternNum;
      ghost var todo := Entries(st, remaining, patternType);
      while i < patternNum && !st.eof
        invariant remaining == patternNum - i && todo == Entries(st, remaining, patternType)
        invariant done + todo == all
        invariant Register(done, loader).ok && markers == old(markers) + Register(done, loader).added
        decreases patternNum - i
      {
        ghost var entryStart, prevType, before := st, patternType, markers;
        patternName, st := ReadPatternName(st);
        var typed := ReadWord(st, patternType);
        patternType, st := typed.0, typed.1;
        ghost var e: Entry;
        var failed := false;
        if patternType == SingleType {
          var read := SingleFields(st);
          st := read.3;
          e := Entry(patternName, patternType, read.0, read.1, read.2);
          var index := AddSingleMarker(patternName, read.0, read.1, read.2, loader);
          failed := index == -1;
        } else if patternType == MultiType {
          e := Entry(patternName, patternType, "", "", "");
          var index := AddMultiMarker(patternName, loader);
          failed := index == -1;
        } else {
          e := Entry(patternName, patternType, "", "", "");
          failed := true;
        }
        assert (e, st) == ReadEntry(entryStart, prevType);
        assert failed <==> Configure(e, loader).None?;
        EntriesStep(entryStart, remaining, prevType);
        ghost var rest := Entries(st, remaining - 1, patternType);
        SetupStep(old(markers), done, e, rest, all, loader, before, markers);
        if failed {
          ret := false;
          break;
        }
        done, todo, remaining := done + [e], rest, remaining - 1;
        i := i + 1;
      }
      if ret {
        assert todo == [];
        assert done == all;
      }
    }

    /**
     `update`: with no image, or when the detector fails, nothing changes.
     Otherwise the number of detections is recorded and every marker, in
     registry order, gets one update: a single marker its best detection or
     "not visible", a multi-marker the whole detection array.
     */
    method Update(detector: int -> DetectResult)
      modifies this`markers, this`markerNum
      ensures !hasImage ==> markers == old(markers) && markerNum == old(markerNum)
      ensures hasImage && detector(threshold).DetectError? ==> markers == old(markers) && markerNum == old(markerNum)
      ensures hasImage && detector(threshold).Detected? ==>
                && markerNum == |detector(threshold).dets|
                && markers == FrameUpdate(old(markers), detector(threshold).dets)
    {
      if !hasImage {
        return;
      }
      var result := detector(threshold);
      if result.DetectError? {
        return;
      }
      var dets := result.dets;
      markerNum := |dets|;
      ghost var before, after := markers, FrameUpdate(markers, dets);
      var i, n := 0, |markers|;
      while i < n
        invariant n == |markers| == |before| == |after| && 0 <= i <= n && markerNum == |dets|
        invariant markers == after[..i] + before[i..]
      {
        ReplaceStep(markers, before, after, i);
        var m := markers[i];
        var next: Marker;
        match m {
          case Single(_, _, _, _, patternID, inputs) =>
            var k := SelectDetection(dets, patternID);
            SelectedIsBest(dets, patternID, k);
            BestIsBestMatch(dets, patternID);
            var input := if k != -1 then Some(dets[k]) else None;
            next := m.(inputs := inputs + [input]);
          case Multi(_, frames) =>
            next := m.(frames := frames + [dets]);
        }
        assert next == after[i];
        markers := markers[i := next];
        i := i + 1;
      }
      assert after[..n] == after && before[n..] == [];
    }

    /**
     `createUndistortedMesh`: appends the mesh's 840 vertices and texture
     coordinates, row of cells by row of cells, and one quad strip per row.
     */
    method CreateUndistortedMesh(width: int, height: int, maxU: real, maxV: real, geometry: Geometry, ops: FloatOps)
      modifies geometry
      ensures geometry.coords == old(geometry.coords) + Vertices(distFactor, width, height, ops)
      ensures geometry.tcoords == old(geometry.tcoords) + TexCoords(maxU, maxV)
      ensures geometry.primitives == old(geometry.primitives) + Strips()
    {
      var rows: nat, cols: nat := Rows, Cols;
      var r := 0;
      while r < rows
        invariant 0 <= r <= rows
        invariant geometry.coords == old(geometry.coords) + VerticesUpTo(distFactor, width, height, ops, r)
        invariant geometry.tcoords == old(geometry.tcoords) + TexCoordsUpTo(maxU, maxV, r)
        invariant geometry.primitives == old(geometry.primitives) + Strips()[..r]
      {
        AppendStripVertices(width, height, maxU, maxV, geometry, ops, r);
        AppendAssoc(old(geometry.coords), VerticesUpTo(distFactor, width, height, ops, r), StripVertices(distFactor, width, height, ops, r));
        AppendAssoc(old(geometry.tcoords), TexCoordsUpTo(maxU, maxV, r), StripTexCoords(maxU, maxV, r));
        StripStart(r);
        PrefixStep(Strips(), r);
        geometry.primitives := geometry.primitives + [DrawArrays(QuadStrip, r * 2 * (cols + 1), 2 * (cols + 1))];
        r := r + 1;
      }
      assert Strips()[..Rows] == Strips();
    }

    /** The column loop of `createUndistortedMesh`: the vertices and texture coordinates of strip `r`. */
    method AppendStripVertices(width: int, height: int, maxU: real, maxV: real, geometry: Geometry, ops: FloatOps, r: nat)
      requires r < Rows
      modifies geometry`coords, geometry`tcoords
      ensures geometry.coords == old(geometry.coords) + StripVertices(distFactor, width, height, ops, r)
      ensures geometry.tcoords == old(geometry.tcoords) + StripTexCoords(maxU, maxV, r)
    {
      ghost var vs, ts := StripVertices(distFactor, width, height, ops, r), StripTexCoords(maxU, maxV, r);
      var c := 0;
      while c <= Cols
        invariant 0 <= c <= Cols + 1
        invariant geometry.coords == old(geometry.coords) + vs[..2 * c]
        invariant geometry.tcoords == old(geometry.tcoords) + ts[..2 * c]
      {
        TakeTwoMore(vs, 2 * c);
        TakeTwoMore(ts, 2 * c);
        StripPair(distFactor, width, height, ops, maxU, maxV, r, c);

        var lower := GridPoint(width, height, c, r);
        var px, py := Observer2Ideal(distFactor, lower.0, lower.1, ops);
        assert Vec3(px, py, 0.0) == vs[2 * c];
        geometry.coords := geometry.coords + [Vec3(px, py, 0.0)];
        var u := (c as real / Cols as real) * maxU;
        var v := (1.0 - r as real / Rows as real) * maxV;
        assert Vec2(u, v) == ts[2 * c];
        geometry.tcoords := geometry.tcoords + [Vec2(u, v)];

        var upper := GridPoint(width, height, c, r + 1);
        px, py := Observer2Ideal(distFactor, upper.0, upper.1, ops);
        assert Vec3(px, py, 0.0) == vs[2 * c + 1];
        geometry.coords := geometry.coords + [Vec3(px, py, 0.0)];
        v := (1.0 - (r + 1) as real / Rows as real) * maxV;
        assert Vec2(u, v) == ts[2 * c + 1];
        geometry.tcoords := geometry.tcoords + [Vec2(u, v)];
        c := c + 1;
      }
    }
  }
}
