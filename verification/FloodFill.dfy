/** Makes the corner background of an icon transparent: a breadth-first search from the four corners. */
module FloodFill {
  newtype Channel = x: int | 0 <= x < 256

  datatype Pixel = Pixel(r: Channel, g: Channel, b: Channel, a: Channel)

  type Point = (int, int)

  const BACKGROUND_MIN_CHANNEL: Channel := 235
  const BACKGROUND_MAX_CHROMA: Channel := 10

  function Min(a: Channel, b: Channel): Channel { if b < a then b else a }
  function Max(a: Channel, b: Channel): Channel { if a < b then b else a }

  predicate IsCornerBackground(p: Pixel) {
    && p.a > 0
    && Min(p.r, Min(p.g, p.b)) >= BACKGROUND_MIN_CHANNEL
    && Max(p.r, Max(p.g, p.b)) - Min(p.r, Min(p.g, p.b)) <= BACKGROUND_MAX_CHROMA
  }

  function Cleared(p: Pixel): Pixel { p.(a := 0) }

  // ----- what the search is for -----

  predicate InImage(image: array2<Pixel>, p: Point) {
    0 <= p.0 < image.Length0 && 0 <= p.1 < image.Length1
  }

  predicate Background(image: array2<Pixel>, p: Point)
    reads image
  {
    InImage(image, p) && IsCornerBackground(image[p.0, p.1])
  }

  predicate Corner(image: array2<Pixel>, p: Point) {
    p.0 in {0, image.Length0 - 1} && p.1 in {0, image.Length1 - 1}
  }

  predicate Adjacent(p: Point, q: Point) {
    || (p.1 == q.1 && (q.0 == p.0 - 1 || q.0 == p.0 + 1))
    || (p.0 == q.0 && (q.1 == p.1 - 1 || q.1 == p.1 + 1))
  }

  /** A walk over background pixels that starts in a corner. */
  ghost predicate Walk(image: array2<Pixel>, path: seq<Point>)
    reads image
  {
    && 0 < |path| && Corner(image, path[0])
    && (forall i :: 0 <= i < |path| ==> Background(image, path[i]))
    && (forall i :: 0 < i < |path| ==> Adjacent(path[i - 1], path[i]))
  }

  ghost predicate Reachable(image: array2<Pixel>, p: Point)
    reads image
  {
    exists path :: Walk(image, path) && path[|path| - 1] == p
  }

  /** The background connected to a corner is transparent, and nothing else has changed. */
  ghost predicate BackgroundRemoved(src: array2<Pixel>, out: array2<Pixel>)
    reads src, out
  {
    && out.Length0 == src.Length0 && out.Length1 == src.Length1
    && forall p :: InImage(src, p) ==>
         out[p.0, p.1] == if Reachable(src, p) then Cleared(src[p.0, p.1]) else src[p.0, p.1]
  }

  lemma CornerReachable(image: array2<Pixel>, p: Point)
    requires Corner(image, p) && Background(image, p)
    ensures Reachable(image, p)
  {
    assert Walk(image, [p]);
  }

  lemma NeighbourReachable(image: array2<Pixel>, p: Point, q: Point)
    requires Reachable(image, p) && Adjacent(p, q) && Background(image, q)
    ensures Reachable(image, q)
  {
    var path :| Walk(image, path) && path[|path| - 1] == p;
    var longer := path + [q];
    assert forall i :: 0 < i < |path| ==> Adjacent(longer[i - 1], longer[i]);
    assert Walk(image, longer) && longer[|longer| - 1] == q;
  }

  // ----- the search -----

  /** A point enters the search as a corner or as a neighbour of a reachable point. */
  ghost predicate Discovered(image: array2<Pixel>, p: Point)
    reads image
  {
    && InImage(image, p)
    && (Corner(image, p) || exists q :: Reachable(image, q) && Adjacent(q, p))
  }

  lemma DiscoveredBackground(image: array2<Pixel>, p: Point)
    requires Discovered(image, p) && Background(image, p)
    ensures Reachable(image, p)
  {
    if Corner(image, p) {
      CornerReachable(image, p);
    } else {
      var q :| Reachable(image, q) && Adjacent(q, p);
      NeighbourReachable(image, q, p);
    }
  }

  ghost predicate Explored(image: array2<Pixel>, seen: set<Point>, p: Point)
    reads image
  {
    Background(image, p) ==> forall q :: Adjacent(p, q) && InImage(image, q) ==> q in seen
  }

  /** A set that holds the corners and explores all its points covers every walk. */
  lemma {:induction false} WalkSeen(image: array2<Pixel>, seen: set<Point>, path: seq<Point>)
    requires Walk(image, path)
    requires forall p :: InImage(image, p) && Corner(image, p) ==> p in seen
    requires forall p :: p in seen ==> Explored(image, seen, p)
    ensures path[|path| - 1] in seen
    decreases |path|
  {
    if |path| > 1 {
      var front := path[..|path| - 1];
      assert Walk(image, front);
      WalkSeen(image, seen, front);
      assert Explored(image, seen, front[|front| - 1]);
    }
  }

  ghost function Points(image: array2<Pixel>): set<Point> {
    set x, y | 0 <= x < image.Length0 && 0 <= y < image.Length1 :: (x, y)
  }

  ghost predicate Frontier(src: array2<Pixel>, queue: seq<Point>, seen: set<Point>)
    reads src
  {
    && (forall p :: InImage(src, p) && Corner(src, p) ==> p in seen)
    && (forall p :: p in queue ==> p in seen)
    && (forall p :: p in seen ==> Discovered(src, p))
    && (forall p :: p in seen && p !in queue ==> Explored(src, seen, p))
  }

  ghost predicate Painted(src: array2<Pixel>, out: array2<Pixel>, queue: seq<Point>, seen: set<Point>)
    reads src, out
  {
    && out.Length0 == src.Length0 && out.Length1 == src.Length1
    && forall p :: InImage(src, p) ==>
         || out[p.0, p.1] == (if p in seen && Background(src, p) then Cleared(src[p.0, p.1]) else src[p.0, p.1])
         || (p in queue && out[p.0, p.1] == src[p.0, p.1])
  }

  /** What visiting the neighbours of p adds: those in the image that have not been seen, at the end of the queue. */
  ghost predicate Expanded(src: array2<Pixel>, p: Point, queue: seq<Point>, seen: set<Point>, queue': seq<Point>,
                           seen': set<Point>) {
    && (forall q :: q in seen' <==> q in seen || (Adjacent(p, q) && InImage(src, q)))
    && queue <= queue'
    && (forall q :: q in queue' <==> q in queue || (q in seen' && q !in seen))
    && (seen' == seen ==> queue' == queue)
  }

  method Expand(src: array2<Pixel>, p: Point, queue: seq<Point>, seen: set<Point>)
    returns (queue': seq<Point>, seen': set<Point>)
    ensures Expanded(src, p, queue, seen, queue', seen')
  {
    queue', seen' := queue, seen;
    var neighbours := [(p.0 - 1, p.1), (p.0 + 1, p.1), (p.0, p.1 - 1), (p.0, p.1 + 1)];
    for i := 0 to 4
      invariant queue <= queue'
      invariant forall q :: q in seen' <==> q in seen || (q in neighbours[..i] && InImage(src, q))
      invariant forall q :: q in queue' <==> q in queue || (q in seen' && q !in seen)
      invariant seen' == seen ==> queue' == queue
    {
      var q := neighbours[i];
      if InImage(src, q) && q !in seen' {
        queue', seen' := queue' + [q], seen' + {q};
      }
    }
    assert neighbours[..4] == neighbours;
    forall q | Adjacent(p, q) ensures q in neighbours {
      assert q in {neighbours[0], neighbours[1], neighbours[2], neighbours[3]};
    }
  }

  lemma ExpandFrontier(src: array2<Pixel>, p: Point, rest: seq<Point>, seen: set<Point>, queue': seq<Point>,
                       seen': set<Point>)
    requires Frontier(src, [p] + rest, seen) && Background(src, p)
    requires Expanded(src, p, rest, seen, queue', seen')
    ensures Frontier(src, queue', seen')
  {
    DiscoveredBackground(src, p);
    forall q | q in seen' && q !in queue' ensures Explored(src, seen', q) {
      assert q in seen;
      if q != p {
        assert Explored(src, seen, q);
      }
    }
  }

  lemma ExpandPainted(src: array2<Pixel>, out: array2<Pixel>, p: Point, rest: seq<Point>, seen: set<Point>,
                      queue': seq<Point>, seen': set<Point>)
    requires Painted(src, out, rest, seen) && Expanded(src, p, rest, seen, queue', seen')
    ensures Painted(src, out, queue', seen')
  {
  }

  lemma ExpandProgress(src: array2<Pixel>, p: Point, rest: seq<Point>, seen: set<Point>, queue': seq<Point>,
                       seen': set<Point>)
    requires Expanded(src, p, rest, seen, queue', seen')
    ensures Points(src) - seen' < Points(src) - seen || (seen' == seen && queue' == rest)
  {
    if seen' != seen {
      var q :| q in seen' && q !in seen;
      assert q in Points(src) - seen;
    }
  }

  lemma Next(src: array2<Pixel>, out: array2<Pixel>, p: Point, rest: seq<Point>, seen: set<Point>)
    requires Frontier(src, [p] + rest, seen) && Painted(src, out, [p] + rest, seen)
    ensures InImage(src, p) && p in seen && out.Length0 == src.Length0 && out.Length1 == src.Length1
    ensures !Background(src, p) ==> Frontier(src, rest, seen) && Painted(src, out, rest, seen)
  {
    assert p in [p] + rest;
    forall q | q in seen && q !in rest && !Background(src, p) ensures Explored(src, seen, q) {
      if q != p {
        assert q !in [p] + rest;
      }
    }
  }

  method Clear(src: array2<Pixel>, out: array2<Pixel>, p: Point, rest: seq<Point>, seen: set<Point>)
    requires src != out && Painted(src, out, [p] + rest, seen) && Background(src, p) && p in seen
    modifies out
    ensures Painted(src, out, rest, seen)
  {
    out[p.0, p.1] := Cleared(out[p.0, p.1]);
  }

  /** Once nothing is waiting, the points seen are exactly those discovered from the corners. */
  lemma SearchFinished(src: array2<Pixel>, out: array2<Pixel>, seen: set<Point>)
    requires Frontier(src, [], seen) && Painted(src, out, [], seen)
    ensures BackgroundRemoved(src, out)
  {
    forall p | InImage(src, p)
      ensures out[p.0, p.1] == if Reachable(src, p) then Cleared(src[p.0, p.1]) else src[p.0, p.1]
    {
      if Reachable(src, p) {
        var path :| Walk(src, path) && path[|path| - 1] == p;
        WalkSeen(src, seen, path);
        assert Background(src, path[|path| - 1]);
      } else if p in seen && Background(src, p) {
        DiscoveredBackground(src, p);
      }
    }
  }

  method Begin(src: array2<Pixel>) returns (out: array2<Pixel>, queue: seq<Point>, seen: set<Point>)
    requires src.Length0 > 0 && src.Length1 > 0
    ensures fresh(out) && Frontier(src, queue, seen) && Painted(src, out, queue, seen)
  {
    var w, h := src.Length0, src.Length1;
    out := new Pixel[w, h]((x, y) requires 0 <= x < w && 0 <= y < h reads src => src[x, y]);
    queue := [(0, 0), (w - 1, 0), (0, h - 1), (w - 1, h - 1)];
    assert queue[0] in queue && queue[1] in queue && queue[2] in queue && queue[3] in queue;
    seen := set p | p in queue;
  }

  method RemoveCornerBackground(src: array2<Pixel>) returns (out: array2<Pixel>)
    requires src.Length0 > 0 && src.Length1 > 0
    ensures fresh(out) && BackgroundRemoved(src, out)
  {
    hide Frontier; hide Painted; hide Expanded; hide Reachable; hide BackgroundRemoved; hide Points;
    var queue, seen;
    out, queue, seen := Begin(src);
    while queue != []
      invariant fresh(out) && Frontier(src, queue, seen) && Painted(src, out, queue, seen)
      decreases Points(src) - seen, |queue|
    {
      var p, rest := queue[0], queue[1..];
      assert queue == [p] + rest;
      Next(src, out, p, rest, seen);
      if IsCornerBackground(src[p.0, p.1]) {
        Clear(src, out, p, rest, seen);
        var queue', seen' := Expand(src, p, rest, seen);
        ExpandFrontier(src, p, rest, seen, queue', seen');
        ExpandPainted(src, out, p, rest, seen, queue', seen');
        ExpandProgress(src, p, rest, seen, queue', seen');
        queue, seen := queue', seen';
      } else {
        queue := rest;
      }
    }
    SearchFinished(src, out, seen);
  }

  /** A second pass over the result finds nothing to remove. */
  lemma SecondPassRemovesNothing(src: array2<Pixel>, out: array2<Pixel>, p: Point)
    requires BackgroundRemoved(src, out)
    ensures !Reachable(out, p)
  {
    forall path | Walk(out, path) ensures path[|path| - 1] != p {
      var c := path[0];
      assert Background(out, c) && Corner(src, c);
      if Background(src, c) {
        CornerReachable(src, c);
      }
    }
  }
}
