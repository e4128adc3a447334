/** The records the named-entity model hands to the analyser. */
module Entities {
  /** One recognised entity: the surface word and its entity group label. */
  datatype Entity = Entity(word: string, group: string)
}
