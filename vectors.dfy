/** Two-dimensional vectors over the reals, standing in for p5.Vector (the z
    component is always 0 in the sketch and is dropped). */
module Vectors {

  datatype Vec = Vec(x: real, y: real)

  function Add(a: Vec, b: Vec): Vec {
    Vec(a.x + b.x, a.y + b.y)
  }

  function Sub(a: Vec, b: Vec): Vec {
    Vec(a.x - b.x, a.y - b.y)
  }

  function Scale(a: Vec, k: real): Vec {
    Vec(a.x * k, a.y * k)
  }

  function Div(a: Vec, k: real): Vec
    requires k != 0.0
  {
    Vec(a.x / k, a.y / k)
  }
}
