/** Generational entity handles. An index of NULL_INDEX marks a handle that names nothing. */
module Entities {

  const NULL_INDEX: nat := 0xFFFF_FFFF

  datatype Entity = Entity(index: nat, generation: nat) {
    predicate Valid() {
      index != NULL_INDEX
    }
  }

  const NONE := Entity(NULL_INDEX, 0)
}
