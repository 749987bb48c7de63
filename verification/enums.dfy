/**
 * The enumerated vocabularies of a job record. Each enum member carries the
 * string value Python's `str`-based `Enum` gives it; `Positions` is the order
 * in which `for position in Position` visits the search categories.
 */
module Enums {

  /** The source a record was scraped from. */
  datatype Website = Laborum | Trabajando | TrabajoConSentido | LinkedIn {
    function Value(): string {
      match this
      case Laborum => "laborum"
      case Trabajando => "trabajando"
      case TrabajoConSentido => "trabajoconsentido"
      case LinkedIn => "linkedin"
    }
  }

  datatype Modality = Remoto | Hibrido | Presencial {
    function Value(): string {
      match this
      case Remoto => "remoto"
      case Hibrido => "hibrido"
      case Presencial => "presencial"
    }
  }

  /** The search category that produced a record. */
  datatype Position =
    | Backend | Frontend | Fullstack | Devops | Qa | Data | Mobile | ProductManager | Designer
  {
    function Value(): string {
      match this
      case Backend => "backend"
      case Frontend => "frontend"
      case Fullstack => "fullstack"
      case Devops => "devops"
      case Qa => "qa"
      case Data => "data"
      case Mobile => "mobile"
      case ProductManager => "product_manager"
      case Designer => "designer"
    }

    /** Declaration order, the order in which Python iterates the enum. */
    function Ordinal(): nat {
      match this
      case Backend => 0
      case Frontend => 1
      case Fullstack => 2
      case Devops => 3
      case Qa => 4
      case Data => 5
      case Mobile => 6
      case ProductManager => 7
      case Designer => 8
    }
  }

  datatype JobType = FullTime | PartTime | Internship | Freelance {
    function Value(): string {
      match this
      case FullTime => "full-time"
      case PartTime => "part-time"
      case Internship => "internship"
      case Freelance => "freelance"
    }
  }

  /** Every position, in declaration order. */
  const Positions: seq<Position> :=
    [Backend, Frontend, Fullstack, Devops, Qa, Data, Mobile, ProductManager, Designer]

  /** `Positions` lists each of the nine members exactly once, in declaration order. */
  lemma PositionsInDeclarationOrder()
    ensures |Positions| == 9
    ensures forall p: Position :: p in Positions
    ensures forall i :: 0 <= i < |Positions| ==> Positions[i].Ordinal() == i
  {
    forall p: Position
      ensures p in Positions
    {
      assert Positions[p.Ordinal()] == p;
    }
  }

  /** No position value contains a space, so replacing spaces in one changes nothing. */
  lemma PositionValuesHaveNoSpace(p: Position)
    ensures ' ' !in p.Value()
  {
  }

  lemma PositionValuesDistinct(p: Position, q: Position)
    ensures p.Value() == q.Value() ==> p == q
  {
  }

  lemma ModalityValuesDistinct(m: Modality, n: Modality)
    ensures m.Value() == n.Value() ==> m == n
  {
  }

  lemma WebsiteValuesDistinct(w: Website, v: Website)
    ensures w.Value() == v.Value() ==> w == v
  {
  }

  lemma JobTypeValuesDistinct(t: JobType, u: JobType)
    ensures t.Value() == u.Value() ==> t == u
  {
  }
}
