/** Transform arithmetic, with the values and the matrices left to the caller: every theorem
    holds for whichever operations are put in. */
module GeometryModule {
  import opened Wrappers

  /** `L` stands for position, rotation and scale, `M` for a matrix. */
  datatype Geometry<!L, !M> = Geometry(
    matrixOf: L -> M,               // translate * rotate * scale
    multiply: (M, M) -> M,
    one: M,
    combine: (L, L) -> L,           // a parent's world values applied to local values
    place: (L, M) -> L,             // the values with the matrix's translation as position
    initial: L,                     // the values of a new entity
    hasZeroScale: L -> bool,
    relocate: (M, M) -> Option<L>)  // the local values that put a world matrix under a parent's, if it has any

  datatype World<L, M> = World(matrix: M, values: L)

  datatype Transform<L, M> = Transform(local: L, world: World<L, M>)

  /** What the code relies on: a new entity's initial world is its initial local below no
      parent, and relocated values have no zero scale. */
  ghost predicate Sound<L(!new), M(!new)>(g: Geometry<L, M>) {
    && Compose(g, Origin(g), g.initial) == Origin(g)
    && !g.hasZeroScale(g.initial)
    && (forall parent, world :: g.relocate(parent, world).Some? ==> !g.hasZeroScale(g.relocate(parent, world).value))
  }

  /** Exact arithmetic: products associate and have a unit. */
  ghost predicate Exact<L, M(!new)>(g: Geometry<L, M>) {
    && (forall a, b, c :: g.multiply(g.multiply(a, b), c) == g.multiply(a, g.multiply(b, c)))
    && (forall a :: g.multiply(g.one, a) == a && g.multiply(a, g.one) == a)
  }

  /** Relocated values put the matrix back where it was. */
  ghost predicate RelocatesExactly<L, M(!new)>(g: Geometry<L, M>) {
    forall parent, world :: g.relocate(parent, world).Some? ==>
      g.multiply(parent, g.matrixOf(g.relocate(parent, world).value)) == world
  }

  function Origin<L, M>(g: Geometry<L, M>): World<L, M> {
    World(g.one, g.initial)
  }

  /** The world of an entity with values `local` below a parent whose world is `parent`. */
  function Compose<L, M>(g: Geometry<L, M>, parent: World<L, M>, local: L): World<L, M> {
    var m := g.multiply(parent.matrix, g.matrixOf(local));
    World(m, g.place(g.combine(parent.values, local), m))
  }

  /** The matrix at the end of a path of local values from a root down: the product of their matrices. */
  function PathMatrix<L, M>(g: Geometry<L, M>, path: seq<L>): M {
    if path == [] then g.one else g.multiply(PathMatrix(g, path[..|path| - 1]), g.matrixOf(path[|path| - 1]))
  }

  /** The world values at the end of a path: combined from the root down, each placed where its matrix puts it. */
  function PathValues<L, M>(g: Geometry<L, M>, path: seq<L>): L {
    if path == [] then g.initial
    else g.place(g.combine(PathValues(g, path[..|path| - 1]), path[|path| - 1]), PathMatrix(g, path))
  }
}
