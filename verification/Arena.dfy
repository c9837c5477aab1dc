/** The memory the intrusive trees live in: node addresses, and one RB_ENTRY per address. */
module Arena {
  type Ptr = nat

  const NULL: Ptr := 0

  datatype Color = Red | Black

  datatype Entry = Entry(left: Ptr, right: Ptr, parent: Ptr, color: Color)

  type Memory = map<Ptr, Entry>

  predicate Within(m: Memory, n: Ptr) {
    n == NULL || n in m
  }

  // The stores RB_LEFT(n) = v, RB_RIGHT(n) = v, RB_PARENT(n) = v and RB_COLOR(n) = c.

  function SetLeft(m: Memory, n: Ptr, v: Ptr): Memory
    requires n in m
  {
    m[n := m[n].(left := v)]
  }

  function SetRight(m: Memory, n: Ptr, v: Ptr): Memory
    requires n in m
  {
    m[n := m[n].(right := v)]
  }

  function SetParent(m: Memory, n: Ptr, v: Ptr): Memory
    requires n in m
  {
    m[n := m[n].(parent := v)]
  }

  function SetColor(m: Memory, n: Ptr, c: Color): Memory
    requires n in m
  {
    m[n := m[n].(color := c)]
  }
}
