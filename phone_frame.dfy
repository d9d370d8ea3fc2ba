/** The layout function of `PhoneFrameView`: on a phone, or in a context smaller than
    the frame image, the content fills the context; otherwise the content sits inside a
    centred phone image, and four border panels fill the rest of the context. */
module PhoneFrame {
  import opened Wrappers
  import opened Geometry

  /** The named renderables of the frame. */
  datatype Panel = Image | Left | Right | Top | Bottom | Content | Inner | TransparentTop

  /** What one `context.set` gives a renderable: a size and a translation. */
  datatype Rect = Rect(size: Size, x: real, y: real, z: real)

  /** One `context.set(name, {size, translate})`, which hands back the rectangle it set. */
  datatype SetCall = SetCall(panel: Panel, rect: Rect)

  /** `innerMargins`, in the order top, right, bottom, left. */
  datatype Margins = Margins(top: real, right: real, bottom: real, left: real)

  /** The options the layout reads: `imageSize` and `innerMargins`. */
  datatype FrameOptions = FrameOptions(imageSize: Size, innerMargins: Margins)

  /** `PhoneFrameView.DEFAULT_OPTIONS`. */
  const DefaultOptions := FrameOptions(Size(400.0, 700.0), Margins(100.0, 60.0, 100.0, 60.0))

  /** The layout falls back to the plain one on a phone, or when the context is
      narrower or lower than the image. */
  predicate Compact(size: Size, isPhone: bool, o: FrameOptions) {
    isPhone || size.w < o.imageSize.w || size.h < o.imageSize.h
  }

  /** The panels of a call sequence, in call order. */
  function Panels(calls: seq<SetCall>): (r: seq<Panel>)
    ensures |r| == |calls| && forall i :: 0 <= i < |calls| ==> r[i] == calls[i].panel
  {
    seq(|calls|, i requires 0 <= i < |calls| => calls[i].panel)
  }

  /** The rectangle the last call for `p` set, if any. */
  function Placed(calls: seq<SetCall>, p: Panel): (r: Option<Rect>)
    ensures r.None? <==> p !in Panels(calls)
    ensures r.Some? ==> SetCall(p, r.value) in calls
    decreases |calls|
  {
    if calls == [] then None
    else
      var k := |calls| - 1;
      if calls[k].panel == p then Some(calls[k].rect)
      else
        assert Panels(calls) == Panels(calls[..k]) + [calls[k].panel];
        Placed(calls[..k], p)
  }

  /** The compact branch: content, inner and the transparent top all fill the context. */
  function CompactLayout(size: Size): (calls: seq<SetCall>)
    ensures Panels(calls) == [Content, Inner, TransparentTop]
    ensures forall i :: 0 <= i < |calls| ==> calls[i].rect.size == size && calls[i].rect.x == calls[i].rect.y == 0.0
    ensures calls[1].rect.z < calls[0].rect.z < calls[2].rect.z
  {
    [ SetCall(Content, Rect(size, 0.0, 0.0, 1.0)),
      SetCall(Inner, Rect(size, 0.0, 0.0, 0.0)),
      SetCall(TransparentTop, Rect(size, 0.0, 0.0, 100.0)) ]
  }

  /** The framed branch: the image centred at z 100, the four border panels at z 99, the
      content inside the image's margins at z 1 and the inner panel behind it at z 0. */
  function FramedLayout(size: Size, o: FrameOptions): (calls: seq<SetCall>)
    ensures Panels(calls) == [Image, Left, Right, Top, Bottom, Content, Inner]
    ensures forall i :: 1 <= i <= 4 ==> calls[6].rect.z < calls[5].rect.z < calls[i].rect.z < calls[0].rect.z
  {
    var m := o.innerMargins;
    var image := Rect(o.imageSize, (size.w - o.imageSize.w) / 2.0, (size.h - o.imageSize.h) / 2.0, 100.0);
    var left := Rect(Size(image.x + m.left, size.h), 0.0, 0.0, 99.0);
    var right := Rect(Size(size.w - image.x - image.size.w + m.right, size.h),
                      image.x + image.size.w - m.right, 0.0, 99.0);
    var top := Rect(Size(size.w, image.y + m.top), 0.0, 0.0, 99.0);
    var bottom := Rect(Size(size.w, size.h - image.y - image.size.h + m.bottom),
                       0.0, image.y + image.size.h - m.bottom, 99.0);
    var content := Rect(Size(o.imageSize.w - m.right - m.left, o.imageSize.h - m.top - m.bottom),
                        image.x + m.left, image.y + m.top, 1.0);
    var inner := Rect(content.size, content.x, content.y, 0.0);
    [ SetCall(Image, image), SetCall(Left, left), SetCall(Right, right), SetCall(Top, top),
      SetCall(Bottom, bottom), SetCall(Content, content), SetCall(Inner, inner) ]
  }

  /** The layout callback given to the frame's `LayoutController`. */
  function FrameLayout(size: Size, isPhone: bool, o: FrameOptions): (calls: seq<SetCall>)
    ensures Compact(size, isPhone, o) ==> Panels(calls) == [Content, Inner, TransparentTop]
    ensures !Compact(size, isPhone, o) ==> Panels(calls) == [Image, Left, Right, Top, Bottom, Content, Inner]
  {
    if Compact(size, isPhone, o) then CompactLayout(size) else FramedLayout(size, o)
  }

  /** Each renderable is set at most once per layout. */
  lemma SetOnce(size: Size, isPhone: bool, o: FrameOptions)
    ensures var ps := Panels(FrameLayout(size, isPhone, o));
      forall i, j :: 0 <= i < j < |ps| ==> ps[i] != ps[j]
  {
  }

  /** The compact layout is used exactly when the device is a phone or the context is
      smaller than the image in either direction; the image and the border panels are
      then not set at all, and the transparent top covers everything. */
  lemma {:induction false} BranchChoice(size: Size, isPhone: bool, o: FrameOptions)
    ensures var calls := FrameLayout(size, isPhone, o);
      && (Placed(calls, Image).None? <==> Compact(size, isPhone, o))
      && (Placed(calls, TransparentTop).Some? <==> Compact(size, isPhone, o))
      && (Compact(size, isPhone, o) ==>
            && Placed(calls, Content) == Some(Rect(size, 0.0, 0.0, 1.0))
            && Placed(calls, Inner) == Some(Rect(size, 0.0, 0.0, 0.0))
            && Placed(calls, TransparentTop) == Some(Rect(size, 0.0, 0.0, 100.0)))
  {
    var calls := FrameLayout(size, isPhone, o);
    if Compact(size, isPhone, o) {
      assert calls[..2][..1] == calls[..1];
    }
  }

  /** In the framed layout the image keeps its size and is centred: the gaps on its two
      sides are equal, as are those above and below it, and none of them is negative. */
  lemma ImageCentred(size: Size, o: FrameOptions)
    requires !Compact(size, false, o)
    ensures var image := FramedLayout(size, o)[0].rect;
      && image.size == o.imageSize && image.z == 100.0
      && image.x == size.w - (image.x + image.size.w) >= 0.0
      && image.y == size.h - (image.y + image.size.h) >= 0.0
  {
  }

  /** In the framed layout the content is the image inset by the margins, in front of
      everything but the image, and the inner panel lies exactly behind it. */
  lemma ContentInset(size: Size, o: FrameOptions)
    requires !Compact(size, false, o)
    ensures var calls := FramedLayout(size, o);
      var image, content, inner := calls[0].rect, calls[5].rect, calls[6].rect;
      var m := o.innerMargins;
      && calls[5].panel == Content && calls[6].panel == Inner
      && content.x == image.x + m.left && content.x + content.size.w == image.x + image.size.w - m.right
      && content.y == image.y + m.top && content.y + content.size.h == image.y + image.size.h - m.bottom
      && content.z == 1.0
      && inner == content.(z := 0.0)
  {
  }

  /** In the framed layout the left and right panels run the full height from the
      context's edges to the content's edges, and the top and bottom panels the full
      width from the context's edges to the content's edges. */
  lemma BordersTile(size: Size, o: FrameOptions)
    requires !Compact(size, false, o)
    ensures var calls := FramedLayout(size, o);
      var left, right, top, bottom, content := calls[1].rect, calls[2].rect, calls[3].rect, calls[4].rect, calls[5].rect;
      && left.x == 0.0 && left.x + left.size.w == content.x
      && right.x == content.x + content.size.w && right.x + right.size.w == size.w
      && top.y == 0.0 && top.y + top.size.h == content.y
      && bottom.y == content.y + content.size.h && bottom.y + bottom.size.h == size.h
      && left.y == right.y == 0.0 && left.size.h == right.size.h == size.h
      && top.x == bottom.x == 0.0 && top.size.w == bottom.size.w == size.w
      && left.z == right.z == top.z == bottom.z == 99.0
  {
  }

  /** Point `(px, py)` lies within rectangle `r`. */
  predicate Covers(r: Rect, px: real, py: real) {
    r.x <= px <= r.x + r.size.w && r.y <= py <= r.y + r.size.h
  }

  /** In the framed layout every point of the context lies in the content or in one of
      the four border panels, so the background shows nowhere. */
  lemma FramedCoversContext(size: Size, o: FrameOptions, px: real, py: real)
    requires !Compact(size, false, o)
    requires 0.0 <= px <= size.w && 0.0 <= py <= size.h
    ensures var calls := FramedLayout(size, o);
      exists i :: 1 <= i <= 5 && Covers(calls[i].rect, px, py)
  {
    var calls := FramedLayout(size, o);
    BordersTile(size, o);
    var left, right, top, bottom, content := calls[1].rect, calls[2].rect, calls[3].rect, calls[4].rect, calls[5].rect;
    if px <= content.x {
      assert Covers(calls[1].rect, px, py);
    } else if px >= right.x {
      assert Covers(calls[2].rect, px, py);
    } else if py <= content.y {
      assert Covers(calls[3].rect, px, py);
    } else if py >= bottom.y {
      assert Covers(calls[4].rect, px, py);
    } else {
      assert Covers(calls[5].rect, px, py);
    }
  }

  /** With the default options on a context of at least 400 by 700, the content is
      280 by 500, 60 in from the image's sides and 100 in from its top and bottom. */
  lemma DefaultContent(size: Size)
    requires size.w >= 400.0 && size.h >= 700.0
    ensures var content := FramedLayout(size, DefaultOptions)[5].rect;
      && !Compact(size, false, DefaultOptions)
      && content.size == Size(280.0, 500.0)
      && content.x == (size.w - 400.0) / 2.0 + 60.0 && content.y == (size.h - 700.0) / 2.0 + 100.0
  {
  }
}
