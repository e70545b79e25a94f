/**
 * The relational rows the graph mirrors, reduced to the columns the graph
 * manager and the two write routes read (the model definitions under src/model).
 */
module Rows {

  datatype User = User(id: int)

  datatype Event = Event(id: int, userId: int, title: string, description: string, createdAt: int)

  /** A follow relation: `followerId` follows `userId`. */
  datatype Relation = Relation(id: int, userId: int, followerId: int)

  /**
   * A reaction. `kind` is the column `type` (0 - event, 1 - comment) and
   * `value` is 0 - none, 1 - like, 2 - dislike.
   */
  datatype Reaction = Reaction(id: int, relationId: int, kind: int, userId: int, value: int)

  /** A comment on the event `relationId`. */
  datatype Comment = Comment(id: int, relationId: int, userId: int)
}
