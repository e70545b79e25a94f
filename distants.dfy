/** The fixed weight table of the graph manager (`Distants`). */
module Distants {
  const Root: int := 100
  const Follow: int := 1
  const Post: int := 2
  const Like: int := 4
  const Comment: int := 4
  const LikeComment: int := 6
}
